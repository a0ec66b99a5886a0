/** Directory records and path navigation over the fs-tree (core/src/dir.rs). */
module Dir {
  import opened Results
  import opened Bytes
  import opened BTree
  import opened FsTree
  import opened VolumeCrypto

  const DIR_REC: nat := 9
  const INODE: nat := 3
  const ROOT_DIR: nat := 2
  const SLASH: Byte := 47

  datatype DirEntry = DirEntry(name: seq<Byte>, fileId: nat, dateAdded: nat, flags: nat)

  /** The bytes before the first NUL. */
  function CStr(data: seq<Byte>): seq<Byte> {
    if data == [] || data[0] == 0 then [] else [data[0]] + CStr(data[1..])
  }

  /** Hashed keys keep a 10-bit length and the name at 12, unhashed ones a 16-bit length and the name at 10. */
  function DrecName(key: seq<Byte>): Option<seq<Byte>> {
    var hashed, plain := LeU32(key, 8) % 1024, LeU16(key, 8);
    if hashed > 0 && 12 + hashed <= |key| then Some(CStr(key[12..12 + hashed]))
    else if plain > 0 && 10 + plain <= |key| then Some(CStr(key[10..10 + plain]))
    else None
  }

  function ParseDirEntry(e: Entry): Option<DirEntry> {
    match DrecName(e.key)
    case None => None
    case Some(name) => Some(DirEntry(name, LeU64(e.value, 0), LeU64(e.value, 8), LeU16(e.value, 16)))
  }

  predicate IsDirRec(e: Entry, parent: nat) {
    KeyType(e.key) == DIR_REC && KeyOid(e.key) == parent
  }

  // ---------- what the callbacks compute from the records they are shown ----------

  function Listed(e: Entry, parent: nat): seq<DirEntry> {
    if IsDirRec(e, parent) && ParseDirEntry(e).Some? then [ParseDirEntry(e).value] else []
  }

  function Gather(rs: seq<Entry>, f: Entry -> seq<DirEntry>): seq<DirEntry> {
    if rs == [] then [] else f(rs[0]) + Gather(rs[1..], f)
  }

  function Listing(rs: seq<Entry>, parent: nat): seq<DirEntry> {
    Gather(rs, (e: Entry) => Listed(e, parent))
  }

  /** The target of the first listed entry with a name. */
  function FirstNamed(ds: seq<DirEntry>, name: seq<Byte>): Option<nat> {
    if ds == [] then None else if ds[0].name == name then Some(ds[0].fileId) else FirstNamed(ds[1..], name)
  }

  /** The value of the first INODE record of `oid`. */
  function FirstInode(rs: seq<Entry>, oid: nat): Option<seq<Byte>> {
    if rs == [] then None
    else if KeyType(rs[0].key) == INODE && KeyOid(rs[0].key) == oid then Some(rs[0].value)
    else FirstInode(rs[1..], oid)
  }

  lemma {:induction false} GatherConcat(a: seq<Entry>, b: seq<Entry>, f: Entry -> seq<DirEntry>)
    ensures Gather(a + b, f) == Gather(a, f) + Gather(b, f)
  {
    if a == [] {
      assert a + b == b;
    } else {
      GatherConcat(a[1..], b, f);
      assert (a + b)[1..] == a[1..] + b && (a + b)[0] == a[0];
      assert f(a[0]) + (Gather(a[1..], f) + Gather(b, f)) == (f(a[0]) + Gather(a[1..], f)) + Gather(b, f);
    }
  }

  lemma {:induction false} FirstNamedConcat(a: seq<DirEntry>, b: seq<DirEntry>, name: seq<Byte>)
    ensures FirstNamed(a + b, name) == if FirstNamed(a, name).Some? then FirstNamed(a, name) else FirstNamed(b, name)
  {
    if a == [] {
      assert a + b == b;
    } else {
      FirstNamedConcat(a[1..], b, name);
      assert (a + b)[1..] == a[1..] + b && (a + b)[0] == a[0];
    }
  }

  /** One more record shown. */
  lemma {:induction false} ListingStep(rs: seq<Entry>, i: nat, parent: nat)
    requires i < |rs|
    ensures Listing(rs[..i + 1], parent) == Listing(rs[..i], parent) + Listed(rs[i], parent)
  {
    var one, f := [rs[i]], (e: Entry) => Listed(e, parent);
    GatherConcat(rs[..i], one, f);
    assert rs[..i + 1] == rs[..i] + one;
    assert Gather(one, f) == f(rs[i]) + Gather(one[1..], f);
  }

  /** The callback of `list_dir`, over the records shown. */
  method CollectEntries(rs: seq<Entry>, parent: nat) returns (out: seq<DirEntry>)
    ensures out == Listing(rs, parent)
  {
    out := [];
    for i := 0 to |rs|
      invariant out == Listing(rs[..i], parent)
    {
      ListingStep(rs, i, parent);
      var entry := ParseDirEntry(rs[i]);
      if IsDirRec(rs[i], parent) && entry.Some? {
        out := out + [entry.value];
      }
    }
    assert rs[..|rs|] == rs;
  }

  /** The callback of `lookup_child`: it keeps the first entry of that name in the listing. */
  method FindEntry(rs: seq<Entry>, parent: nat, name: seq<Byte>) returns (found: Option<nat>)
    ensures found == FirstNamed(Listing(rs, parent), name)
  {
    found := None;
    for i := 0 to |rs|
      invariant found == FirstNamed(Listing(rs[..i], parent), name)
    {
      ListingStep(rs, i, parent);
      FirstNamedConcat(Listing(rs[..i], parent), Listed(rs[i], parent), name);
      if found.None? && IsDirRec(rs[i], parent) {
        var entry := ParseDirEntry(rs[i]);
        if entry.Some? && entry.value.name == name {
          found := Some(entry.value.fileId);
        }
      }
    }
    assert rs[..|rs|] == rs;
  }

  /** The records a keyed walk shows for an object id, or the error it stops with. */
  type Records = nat -> Result<seq<Entry>>

  /** The keyed walks of a volume. */
  function Walked(img: seq<Byte>, bs: nat, vol: Volume, vek: Option<Cipher>): Records {
    (oid: nat) => Collected(WalkFsTree(img, bs, vol, vek, Some(oid)))
  }

  function DirOf(records: Records, parent: nat): Result<seq<DirEntry>> {
    var rs :- records(parent);
    Ok(Listing(rs, parent))
  }

  function ChildOf(records: Records, parent: nat, name: seq<Byte>): Result<Option<nat>> {
    var ds :- DirOf(records, parent);
    Ok(FirstNamed(ds, name))
  }

  method ListDir(img: seq<Byte>, bs: nat, vol: Volume, vek: Option<Cipher>, parent: nat) returns (r: Result<seq<DirEntry>>)
    ensures r == DirOf(Walked(img, bs, vol, vek), parent)
  {
    var rs := ForEachFsRecord(img, bs, vol, vek, Some(parent));
    if rs.Err? {
      return Err(rs.error);
    }
    var out := CollectEntries(rs.value, parent);
    return Ok(out);
  }

  /** Looking a name up finds the first entry of that name in the listing. */
  method LookupChild(img: seq<Byte>, bs: nat, vol: Volume, vek: Option<Cipher>, parent: nat, name: seq<Byte>)
    returns (r: Result<Option<nat>>)
    ensures r == ChildOf(Walked(img, bs, vol, vek), parent, name)
  {
    var rs := ForEachFsRecord(img, bs, vol, vek, Some(parent));
    if rs.Err? {
      return Err(rs.error);
    }
    var found := FindEntry(rs.value, parent, name);
    return Ok(found);
  }

  // ---------- paths ----------

  /** The number of bytes before the first slash. */
  function WordLen(path: seq<Byte>): (n: nat)
    ensures n <= |path|
    ensures forall k :: 0 <= k < n ==> path[k] != SLASH
    ensures n < |path| ==> path[n] == SLASH
  {
    if path == [] || path[0] == SLASH then 0 else 1 + WordLen(path[1..])
  }

  /** `path.split('/').filter(|c| !c.is_empty())`. */
  function Components(path: seq<Byte>): seq<seq<Byte>>
    decreases |path|
  {
    if path == [] then []
    else if path[0] == SLASH then Components(path[1..])
    else [path[..WordLen(path)]] + Components(path[WordLen(path)..])
  }

  /** The inode number reached from `start` by following the names one by one. */
  function Follow(records: Records, xid: nat, start: nat, names: seq<seq<Byte>>): Result<nat>
    decreases |names|
  {
    if names == [] then Ok(start) else
    var rs :- records(start);
    match FirstNamed(Listing(rs, start), names[0])
    case None => Err(OmapUnresolved(start, xid))
    case Some(child) => Follow(records, xid, child, names[1..])
  }

  function LoadInode(records: Records, xid: nat, oid: nat): Result<seq<Byte>> {
    var rs :- records(oid);
    match FirstInode(rs, oid)
    case None => Err(OmapUnresolved(oid, xid))
    case Some(value) => Ok(value)
  }

  /** The INODE record value at the end of a path. */
  function Opened(records: Records, xid: nat, path: seq<Byte>): Result<seq<Byte>> {
    var oid :- Follow(records, xid, ROOT_DIR, Components(path));
    LoadInode(records, xid, oid)
  }

  method OpenPath(img: seq<Byte>, bs: nat, vol: Volume, vek: Option<Cipher>, path: seq<Byte>) returns (r: Result<seq<Byte>>)
    ensures r == Opened(Walked(img, bs, vol, vek), vol.xid, path)
  {
    ghost var records := Walked(img, bs, vol, vek);
    var current := ROOT_DIR;
    var names := Components(path);
    for i := 0 to |names|
      invariant Follow(records, vol.xid, ROOT_DIR, names) == Follow(records, vol.xid, current, names[i..])
    {
      var child := LookupChild(img, bs, vol, vek, current, names[i]);
      if child.Err? {
        return Err(child.error);
      }
      if child.value.None? {
        return Err(OmapUnresolved(current, vol.xid));
      }
      assert names[i..][1..] == names[i + 1..];
      current := child.value.value;
    }
    var rs := ForEachFsRecord(img, bs, vol, vek, Some(current));
    if rs.Err? {
      return Err(rs.error);
    }
    var value := FirstInode(rs.value, current);
    return if value.Some? then Ok(value.value) else Err(OmapUnresolved(current, vol.xid));
  }

  // ---------- laws of paths ----------

  lemma {:induction false} WordLenIs(word: seq<Byte>, rest: seq<Byte>)
    requires forall k :: 0 <= k < |word| ==> word[k] != SLASH
    requires rest == [] || rest[0] == SLASH
    ensures WordLen(word + rest) == |word|
  {
    if word == [] {
      assert word + rest == rest;
    } else {
      WordLenIs(word[1..], rest);
      assert (word + rest)[1..] == word[1..] + rest;
    }
  }

  /** Joining two paths with a slash joins their component lists, so extra slashes anywhere change nothing. */
  lemma {:induction false} ComponentsJoin(p: seq<Byte>, q: seq<Byte>)
    ensures Components(p + [SLASH] + q) == Components(p) + Components(q)
    decreases |p|
  {
    var whole := p + [SLASH] + q;
    if p == [] {
      assert whole[1..] == q;
    } else if p[0] == SLASH {
      ComponentsJoin(p[1..], q);
      assert whole[1..] == p[1..] + [SLASH] + q;
    } else {
      var n := WordLen(p);
      var word, rest := p[..n], p[n..];
      assert n > 0;
      assert p == word + rest && whole == word + (rest + [SLASH] + q);
      WordLenIs(word, rest + [SLASH] + q);
      assert whole[..n] == word && whole[n..] == rest + [SLASH] + q;
      ComponentsJoin(rest, q);
    }
  }

  /** Resolving p/q is resolving q from where p leads. */
  lemma {:induction false} FollowConcat(records: Records, xid: nat, start: nat, a: seq<seq<Byte>>, b: seq<seq<Byte>>)
    ensures Follow(records, xid, start, a + b) ==
              match Follow(records, xid, start, a)
              case Err(e) => Err(e)
              case Ok(mid) => Follow(records, xid, mid, b)
    decreases |a|
  {
    if a == [] {
      assert a + b == b;
    } else {
      assert (a + b)[0] == a[0] && (a + b)[1..] == a[1..] + b;
      if records(start).Ok? {
        var next := FirstNamed(Listing(records(start).value, start), a[0]);
        if next.Some? {
          FollowConcat(records, xid, next.value, a[1..], b);
        }
      }
    }
  }

  lemma {:induction false} PathsCompose(records: Records, xid: nat, p: seq<Byte>, q: seq<Byte>)
    ensures Opened(records, xid, p + [SLASH] + q) ==
              match Follow(records, xid, ROOT_DIR, Components(p))
              case Err(e) => Err(e)
              case Ok(dir) =>
                match Follow(records, xid, dir, Components(q))
                case Err(e) => Err(e)
                case Ok(oid) => LoadInode(records, xid, oid)
  {
    ComponentsJoin(p, q);
    FollowConcat(records, xid, ROOT_DIR, Components(p), Components(q));
  }

  lemma {:induction false} DoubledSlash(p: seq<Byte>, q: seq<Byte>)
    ensures Components(p + [SLASH, SLASH] + q) == Components(p + [SLASH] + q)
  {
    assert p + [SLASH, SLASH] + q == p + [SLASH] + ([SLASH] + q);
    assert [] + [SLASH] + q == [SLASH] + q;
    ComponentsJoin(p, [SLASH] + q);
    ComponentsJoin([], q);
    ComponentsJoin(p, q);
    assert [] + Components(q) == Components(q);
  }

  lemma {:induction false} SlashesChangeNothing(records: Records, xid: nat, p: seq<Byte>, q: seq<Byte>)
    ensures Opened(records, xid, [SLASH] + p) == Opened(records, xid, p)
    ensures Opened(records, xid, p + [SLASH]) == Opened(records, xid, p)
    ensures Opened(records, xid, p + [SLASH, SLASH] + q) == Opened(records, xid, p + [SLASH] + q)
  {
    ComponentsJoin([], p);
    assert [] + [SLASH] + p == [SLASH] + p;
    ComponentsJoin(p, []);
    assert p + [SLASH] + [] == p + [SLASH];
    assert Components(p) + [] == Components(p);
    DoubledSlash(p, q);
  }

  // ---------- keyed navigation is navigation over the flat record list ----------

  lemma {:induction false} ListingOfFilter(rs: seq<Entry>, parent: nat)
    ensures Listing(Filter(rs, For(parent)), parent) == Listing(rs, parent)
  {
    if rs != [] {
      ListingOfFilter(rs[1..], parent);
      var tail := Filter(rs[1..], For(parent));
      if For(parent)(rs[0]) {
        assert ([rs[0]] + tail)[1..] == tail;
      } else {
        assert [] + tail == tail;
      }
    }
  }

  lemma {:induction false} InodeOfFilter(rs: seq<Entry>, oid: nat)
    ensures FirstInode(Filter(rs, For(oid)), oid) == FirstInode(rs, oid)
  {
    if rs != [] {
      InodeOfFilter(rs[1..], oid);
      var tail := Filter(rs[1..], For(oid));
      if For(oid)(rs[0]) {
        assert ([rs[0]] + tail)[1..] == tail;
      } else {
        assert [] + tail == tail;
      }
    }
  }

  /** The records shown for an object id are those of its keyed walk of the tree. */
  ghost predicate ShownByWalks(records: Records, fetch: Fetch, root: nat) {
    forall oid: nat :: records(oid) == Collected(Visit(fetch, Keyed(Some(oid)), root, 0, {}))
  }

  /** The same flat record list for every object id. */
  function FlatRecords(scan: seq<Entry>): Records {
    (oid: nat) => Ok(scan)
  }

  lemma {:induction false} KeyedShowsTheSame(records: Records, fetch: Fetch, t: Tree, oid: nat)
    requires Walkable(fetch, t, 0, {}) && OidBounds(t) && ShownByWalks(records, fetch, t.id)
    ensures var keyed, scan := records(oid), BTree.Records(t, ALL);
            && keyed.Ok? && Listing(keyed.value, oid) == Listing(scan, oid)
            && FirstInode(keyed.value, oid) == FirstInode(scan, oid)
  {
    KeyedWalkIsFilteredWalk(fetch, t, oid);
    WalkOfTree(fetch, ALL, t, 0, {});
    var keyed := Visit(fetch, Keyed(Some(oid)), t.id, 0, {}).out;
    ListingOfFilter(keyed, oid);
    ListingOfFilter(BTree.Records(t, ALL), oid);
    InodeOfFilter(keyed, oid);
    InodeOfFilter(BTree.Records(t, ALL), oid);
  }

  lemma {:induction false} FollowFlat(records: Records, fetch: Fetch, t: Tree, xid: nat, start: nat, names: seq<seq<Byte>>)
    requires Walkable(fetch, t, 0, {}) && OidBounds(t) && ShownByWalks(records, fetch, t.id)
    ensures Follow(records, xid, start, names) == Follow(FlatRecords(BTree.Records(t, ALL)), xid, start, names)
    decreases |names|
  {
    if names != [] {
      KeyedShowsTheSame(records, fetch, t, start);
      var next := FirstNamed(Listing(BTree.Records(t, ALL), start), names[0]);
      if next.Some? {
        FollowFlat(records, fetch, t, xid, next.value, names[1..]);
      }
    }
  }

  /**
   Opening a path with pruned, keyed walks at every step gives what repeatedly
   searching the flat list of all fs-tree records gives.
   */
  lemma {:induction false} KeyedNavigationIsFlat(records: Records, fetch: Fetch, t: Tree, xid: nat, path: seq<Byte>)
    requires Walkable(fetch, t, 0, {}) && OidBounds(t) && ShownByWalks(records, fetch, t.id)
    ensures Opened(records, xid, path) == Opened(FlatRecords(BTree.Records(t, ALL)), xid, path)
  {
    FollowFlat(records, fetch, t, xid, ROOT_DIR, Components(path));
    var oid := Follow(records, xid, ROOT_DIR, Components(path));
    if oid.Ok? {
      KeyedShowsTheSame(records, fetch, t, oid.value);
    }
  }

  /** On an image whose fs-tree is walkable: every listing, and every path, is as in the flat list of its records. */
  lemma {:induction false} ImageNavigationIsFlat(img: seq<Byte>, bs: nat, vol: Volume, vek: Option<Cipher>, t: Tree, path: seq<Byte>)
    requires HoldsTree(img, bs, vol, vek, t) && OidBounds(t)
    ensures Opened(Walked(img, bs, vol, vek), vol.xid, path) == Opened(FlatRecords(BTree.Records(t, ALL)), vol.xid, path)
    ensures forall parent: nat :: DirOf(Walked(img, bs, vol, vek), parent) == Ok(Listing(BTree.Records(t, ALL), parent))
  {
    var records, fetch := Walked(img, bs, vol, vek), Virtual(img, bs, vek, OpenOmap(img, bs, vol.omapOid).value, vol.xid);
    assert ShownByWalks(records, fetch, t.id);
    KeyedNavigationIsFlat(records, fetch, t, vol.xid, path);
    forall parent: nat ensures DirOf(records, parent) == Ok(Listing(BTree.Records(t, ALL), parent)) {
      KeyedShowsTheSame(records, fetch, t, parent);
    }
  }
}
