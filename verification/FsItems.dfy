/**
 File-system records written out (core/src/fsrecord.rs, dir.rs, extent.rs), and
 what navigation and extent listing make of any list of them.
 */
module FsItems {
  import opened Results
  import opened Bytes
  import opened BTree
  import opened FsTree
  import opened VolumeCrypto
  import opened Dir
  import opened Extent
  import Damage

  /** A record of the fs-tree. */
  datatype Item =
    | LinkItem(parent: nat, name: seq<Byte>, hash: Option<nat>, target: nat, added: nat, flags: nat, tail: seq<Byte>)
    | InodeItem(oid: nat, value: seq<Byte>)
    | ExtentItem(stream: nat, extent: FileExtent, lenFlags: nat)
    | OtherItem(oid: nat, kind: nat, keyTail: seq<Byte>, value: seq<Byte>)

  // ---------- record keys ----------

  /** The record type in the top 4 bits, the object id in the other 60. */
  function KeyHead(kind: nat, oid: nat): seq<Byte> {
    LeBytes(kind * 0x1000_0000_0000_0000 + oid, 8)
  }

  predicate OidFits(oid: nat) {
    oid < 0x1000_0000_0000_0000
  }

  lemma {:induction false} KeyReads(kind: nat, oid: nat, more: seq<Byte>)
    requires kind < 16 && OidFits(oid)
    ensures var key := KeyHead(kind, oid) + more;
            KeyType(key) == kind && KeyOid(key) == oid && At(key, 8, more)
  {
    var key, word := KeyHead(kind, oid) + more, kind * 0x1000_0000_0000_0000 + oid;
    Pow256Values();
    assert At(key, 0, LeBytes(word, 8) + more);
    FieldThen(key, 0, word, 8, more);
    SplitWord(kind, oid);
  }

  lemma {:induction false} SplitWord(kind: nat, oid: nat)
    requires kind < 16 && OidFits(oid)
    ensures var word := kind * 0x1000_0000_0000_0000 + oid;
            word < U64 && word / 0x1000_0000_0000_0000 == kind && word % 0x1000_0000_0000_0000 == oid
  {
  }

  // ---------- names in directory keys ----------

  predicate NoNul(name: seq<Byte>) {
    forall i :: 0 <= i < |name| ==> name[i] != 0
  }

  /** A name key: with a hash, 10 bits of length below 22 bits of hash; without, 16 bits of length. The length counts the NUL. */
  function NameTail(name: seq<Byte>, hash: Option<nat>): seq<Byte> {
    match hash
    case Some(h) => LeBytes(h * 1024 + (|name| + 1), 4) + (name + [0])
    case None => LeBytes(|name| + 1, 2) + (name + [0])
  }

  function NameKey(parent: nat, name: seq<Byte>, hash: Option<nat>): seq<Byte> {
    KeyHead(9, parent) + NameTail(name, hash)
  }

  predicate NameFits(name: seq<Byte>, hash: Option<nat>) {
    NoNul(name) && match hash
                   case Some(h) => |name| + 1 < 1024 && h < 0x40_0000
                   case None => |name| + 1 < 0x1_0000
  }

  /** The cases in which the key's form is recognized. */
  predicate NameReadable(name: seq<Byte>, hash: Option<nat>) {
    hash.Some? || |name| + 1 < 1024 || (|name| + 1) % 1024 == 0
  }

  lemma {:induction false} CStrOf(name: seq<Byte>)
    requires NoNul(name)
    ensures CStr(name + [0]) == name
  {
    if name != [] {
      CStrOf(name[1..]);
      assert (name + [0])[1..] == name[1..] + [0];
    }
  }

  lemma {:induction false} CStrShort(data: seq<Byte>)
    ensures |CStr(data)| <= |data|
  {
    if data != [] && data[0] != 0 {
      CStrShort(data[1..]);
    }
  }

  lemma {:induction false} HashedName(parent: nat, name: seq<Byte>, h: nat)
    requires OidFits(parent) && NameFits(name, Some(h))
    ensures DrecName(NameKey(parent, name, Some(h))) == Some(name)
  {
    var key, n := NameKey(parent, name, Some(h)), |name| + 1;
    KeyReads(9, parent, NameTail(name, Some(h)));
    LowTen(h, n);
    HashedLayout(key, h * 1024 + n, name + [0]);
    CStrOf(name);
  }

  lemma {:induction false} HashedLayout(key: seq<Byte>, word: nat, name: seq<Byte>)
    requires word < 0x1_0000_0000 && At(key, 8, LeBytes(word, 4) + name)
    ensures LeU32(key, 8) == word && 12 + |name| <= |key| && key[12..12 + |name|] == name
  {
    Pow256Values();
    FieldThen(key, 8, word, 4, name);
  }

  lemma {:induction false} LowTen(h: nat, n: nat)
    requires n < 1024 && h < 0x40_0000
    ensures (h * 1024 + n) % 1024 == n && h * 1024 + n < 0x1_0000_0000
  {
  }

  /** The low ten bits of the 32-bit word at offset 8 are those of the 16-bit length there. */
  lemma {:induction false} WordOfLength(key: seq<Byte>, n: nat)
    requires At(key, 8, LeBytes(n, 2)) && n < 0x1_0000 && |key| >= 12
    ensures LeU32(key, 8) % 1024 == n % 1024
  {
    Pow256Values();
    var low, high := key[8..10], key[10..12];
    LeRoundTrip(n, 2);
    Damage.LeSplit(low, high);
    assert key[8..12] == low + high;
    TenBits(n, LeVal(high));
  }

  lemma {:induction false} TenBits(n: nat, high: nat)
    ensures (n + 0x1_0000 * high) % 1024 == n % 1024
  {
    assert n + 0x1_0000 * high == n + 1024 * (64 * high);
  }

  lemma {:induction false} PlainLayout(parent: nat, name: seq<Byte>)
    requires OidFits(parent) && NameFits(name, None)
    ensures var key, n := NameKey(parent, name, None), |name| + 1;
            && |key| == 10 + n && LeU16(key, 8) == n && key[10..10 + n] == name + [0]
            && LeU32(key, 8) % 1024 == (if n == 1 then 0 else n % 1024)
  {
    var key, n := NameKey(parent, name, None), |name| + 1;
    Pow256Values();
    KeyReads(9, parent, NameTail(name, None));
    FieldThen(key, 8, n, 2, name + [0]);
    if n > 1 {
      AtSplit(key, 8, LeBytes(n, 2), name + [0]);
      WordOfLength(key, n);
    }
  }

  /** A key of this shape is taken for a plain one unless the low ten bits of its length are those of a hashed one that fits. */
  lemma {:induction false} PlainShape(key: seq<Byte>, n: nat, hashed: nat, name: seq<Byte>)
    requires 1 <= n == |name| + 1 && |key| == 10 + n && LeU16(key, 8) == n && key[10..10 + n] == name + [0] && NoNul(name)
    requires LeU32(key, 8) % 1024 == hashed
    ensures hashed == 0 || 12 + hashed > |key| ==> DrecName(key) == Some(name)
    ensures 0 < hashed && 12 + hashed <= |key| ==> DrecName(key).Some? && |DrecName(key).value| <= hashed
  {
    CStrOf(name);
    if 0 < hashed && 12 + hashed <= |key| {
      CStrShort(key[12..12 + hashed]);
    }
  }

  /** A plain key is recognized exactly when its length, NUL included, is below 1024 or a multiple of it. */
  lemma {:induction false} PlainName(parent: nat, name: seq<Byte>)
    requires OidFits(parent) && NameFits(name, None)
    ensures DrecName(NameKey(parent, name, None)) == Some(name) <==> NameReadable(name, None)
  {
    var n := |name| + 1;
    PlainLayout(parent, name);
    PlainShape(NameKey(parent, name, None), n, if n == 1 then 0 else n % 1024, name);
  }

  lemma {:induction false} NameReads(parent: nat, name: seq<Byte>, hash: Option<nat>)
    requires OidFits(parent) && NameFits(name, hash)
    ensures DrecName(NameKey(parent, name, hash)) == Some(name) <==> NameReadable(name, hash)
  {
    match hash
    case Some(h) => HashedName(parent, name, h);
    case None => PlainName(parent, name);
  }

  // ---------- records ----------

  function PrintItem(x: Item): Entry {
    match x
    case LinkItem(parent, name, hash, target, added, flags, tail) =>
      Entry(NameKey(parent, name, hash), LeBytes(target, 8) + (LeBytes(added, 8) + (LeBytes(flags, 2) + tail)))
    case InodeItem(oid, value) => Entry(KeyHead(3, oid) + [], value)
    case ExtentItem(stream, e, lenFlags) =>
      Entry(KeyHead(8, stream) + LeBytes(e.offset, 8),
            LeBytes(lenFlags * 0x100_0000_0000_0000 + e.len, 8) + (LeBytes(e.phys, 8) + LeBytes(e.cryptoId, 8)))
    case OtherItem(oid, kind, keyTail, value) => Entry(KeyHead(kind, oid) + keyTail, value)
  }

  predicate ItemFits(x: Item) {
    match x
    case LinkItem(parent, name, hash, target, added, flags, _) =>
      OidFits(parent) && NameFits(name, hash) && NameReadable(name, hash) && target < U64 && added < U64 && flags < 0x1_0000
    case InodeItem(oid, _) => OidFits(oid)
    case ExtentItem(stream, e, lenFlags) =>
      OidFits(stream) && e.offset < U64 && e.len < 0x100_0000_0000_0000 && e.phys < U64 && e.cryptoId < U64 && lenFlags < 256
    case OtherItem(oid, kind, _, _) => OidFits(oid) && kind < 16 && kind !in {3, 8, 9}
  }

  lemma {:induction false} LinkReads(x: Item)
    requires x.LinkItem? && ItemFits(x)
    ensures var e := PrintItem(x);
            && KeyType(e.key) == 9 && KeyOid(e.key) == x.parent
            && ParseDirEntry(e) == Some(DirEntry(x.name, x.target, x.added, x.flags))
  {
    var e := PrintItem(x);
    KeyReads(9, x.parent, NameTail(x.name, x.hash));
    NameReads(x.parent, x.name, x.hash);
    Pow256Values();
    var r16 := LeBytes(x.flags, 2) + x.tail;
    assert At(e.value, 0, LeBytes(x.target, 8) + (LeBytes(x.added, 8) + r16));
    FieldThen(e.value, 0, x.target, 8, LeBytes(x.added, 8) + r16);
    FieldThen(e.value, 8, x.added, 8, r16);
    FieldThen(e.value, 16, x.flags, 2, x.tail);
  }

  lemma {:induction false} LenWord(len: nat, lenFlags: nat)
    requires len < 0x100_0000_0000_0000 && lenFlags < 256
    ensures var word := lenFlags * 0x100_0000_0000_0000 + len;
            word < U64 && word % 0x100_0000_0000_0000 == len
  {
  }

  /** An extent record reads back with all its fields, whatever the flags above its length. */
  lemma {:induction false} ExtentReads(x: Item)
    requires x.ExtentItem? && ItemFits(x)
    ensures var r := PrintItem(x);
            KeyType(r.key) == 8 && KeyOid(r.key) == x.stream && ParseExtent(r) == x.extent
  {
    var r, e := PrintItem(x), x.extent;
    var word := x.lenFlags * 0x100_0000_0000_0000 + e.len;
    KeyReads(8, x.stream, LeBytes(e.offset, 8));
    LenWord(e.len, x.lenFlags);
    Pow256Values();
    ReadAt(r.key, 8, e.offset, 8);
    assert At(r.value, 0, LeBytes(word, 8) + (LeBytes(e.phys, 8) + LeBytes(e.cryptoId, 8)));
    FieldThen(r.value, 0, word, 8, LeBytes(e.phys, 8) + LeBytes(e.cryptoId, 8));
    FieldThen(r.value, 8, e.phys, 8, LeBytes(e.cryptoId, 8));
    ReadAt(r.value, 16, e.cryptoId, 8);
  }

  /** What each record is to the three callbacks. */
  lemma {:induction false} ItemReads(x: Item, oid: nat)
    requires ItemFits(x)
    ensures Listed(PrintItem(x), oid) == LinkOf(x, oid)
    ensures KeyType(PrintItem(x).key) == 3 && KeyOid(PrintItem(x).key) == oid <==> x.InodeItem? && x.oid == oid
    ensures x.InodeItem? ==> PrintItem(x).value == x.value
    ensures IsExtent(PrintItem(x), oid) <==> x.ExtentItem? && x.stream == oid
    ensures x.ExtentItem? ==> ParseExtent(PrintItem(x)) == x.extent
  {
    match x
    case LinkItem(_, _, _, _, _, _, _) => LinkReads(x);
    case InodeItem(o, _) => KeyReads(3, o, []);
    case ExtentItem(_, _, _) => ExtentReads(x);
    case OtherItem(o, kind, keyTail, _) => KeyReads(kind, o, keyTail);
  }

  function PrintItems(items: seq<Item>): (rs: seq<Entry>)
    ensures |rs| == |items|
  {
    seq(|items|, i requires 0 <= i < |items| => PrintItem(items[i]))
  }

  ghost predicate AllItemsFit(items: seq<Item>) {
    forall i :: 0 <= i < |items| ==> ItemFits(items[i])
  }

  lemma {:induction false} PrintRest(items: seq<Item>)
    requires items != []
    ensures PrintItems(items)[0] == PrintItem(items[0]) && PrintItems(items)[1..] == PrintItems(items[1..])
  {
  }

  // ---------- listings ----------

  function LinkOf(x: Item, parent: nat): seq<DirEntry> {
    if x.LinkItem? && x.parent == parent then [DirEntry(x.name, x.target, x.added, x.flags)] else []
  }

  /** The links of a directory, in order. */
  function Links(items: seq<Item>, parent: nat): seq<DirEntry> {
    if items == [] then [] else LinkOf(items[0], parent) + Links(items[1..], parent)
  }

  lemma {:induction false} ListingIsLinks(items: seq<Item>, parent: nat)
    requires AllItemsFit(items)
    ensures Listing(PrintItems(items), parent) == Links(items, parent)
  {
    if items != [] {
      PrintRest(items);
      ItemReads(items[0], parent);
      ListingIsLinks(items[1..], parent);
    }
  }

  /** Item i links the name in the directory. */
  predicate IsLink(x: Item, parent: nat, name: seq<Byte>) {
    x.LinkItem? && x.parent == parent && x.name == name
  }

  /** The first link of that name leads to `target`. */
  ghost predicate LeadsTo(items: seq<Item>, parent: nat, name: seq<Byte>, target: nat) {
    exists i :: 0 <= i < |items| && IsLink(items[i], parent, name) && items[i].target == target &&
      forall j :: 0 <= j < i ==> !IsLink(items[j], parent, name)
  }

  /** Looking a name up in a listing finds its first entry, and nothing when it has none. */
  lemma {:induction false} FirstNamedExact(ds: seq<DirEntry>, name: seq<Byte>, id: nat)
    ensures FirstNamed(ds, name) == Some(id) <==>
              exists i :: 0 <= i < |ds| && ds[i].name == name && ds[i].fileId == id && forall j :: 0 <= j < i ==> ds[j].name != name
    ensures FirstNamed(ds, name) == None <==> forall i :: 0 <= i < |ds| ==> ds[i].name != name
  {
    if ds != [] {
      var rest := ds[1..];
      FirstNamedExact(rest, name, id);
      assert forall i :: 0 <= i < |rest| ==> rest[i] == ds[i + 1];
      if ds[0].name != name {
        if FirstNamed(rest, name) == Some(id) {
          var i :| 0 <= i < |rest| && rest[i].name == name && rest[i].fileId == id && forall j :: 0 <= j < i ==> rest[j].name != name;
          assert ds[i + 1].name == name;
          forall j | 0 <= j < i + 1 ensures ds[j].name != name {
            assert j > 0 ==> ds[j] == rest[j - 1];
          }
        }
        forall i | 0 < i < |ds| && ds[i].name == name && ds[i].fileId == id && forall j :: 0 <= j < i ==> ds[j].name != name
          ensures FirstNamed(rest, name) == Some(id)
        {
          assert rest[i - 1] == ds[i];
        }
        forall i | 0 < i < |ds| ensures ds[i] == rest[i - 1] {
        }
      }
    }
  }

  lemma {:induction false} LeadsToStep(items: seq<Item>, parent: nat, name: seq<Byte>, target: nat)
    requires items != []
    ensures LeadsTo(items, parent, name, target) <==>
              if IsLink(items[0], parent, name) then items[0].target == target else LeadsTo(items[1..], parent, name, target)
  {
    var rest := items[1..];
    if !IsLink(items[0], parent, name) && LeadsTo(items, parent, name, target) {
      var i :| 0 <= i < |items| && IsLink(items[i], parent, name) && items[i].target == target &&
        forall j :: 0 <= j < i ==> !IsLink(items[j], parent, name);
      assert rest[i - 1] == items[i];
      forall j | 0 <= j < i - 1 ensures !IsLink(rest[j], parent, name) {
        assert rest[j] == items[j + 1];
      }
    }
    if !IsLink(items[0], parent, name) && LeadsTo(rest, parent, name, target) {
      var i :| 0 <= i < |rest| && IsLink(rest[i], parent, name) && rest[i].target == target &&
        forall j :: 0 <= j < i ==> !IsLink(rest[j], parent, name);
      assert items[i + 1] == rest[i];
      forall j | 0 <= j < i + 1 ensures !IsLink(items[j], parent, name) {
        assert j > 0 ==> items[j] == rest[j - 1];
      }
    }
  }

  /** Looking a name up in a directory follows its first link. */
  lemma {:induction false} LookupExact(items: seq<Item>, parent: nat, name: seq<Byte>, target: nat)
    ensures FirstNamed(Links(items, parent), name) == Some(target) <==> LeadsTo(items, parent, name, target)
  {
    if items != [] {
      LeadsToStep(items, parent, name, target);
      LookupExact(items[1..], parent, name, target);
      var one, rest := LinkOf(items[0], parent), Links(items[1..], parent);
      if one == [] {
        assert one + rest == rest;
      } else {
        assert (one + rest)[0] == one[0] && (one + rest)[1..] == rest;
      }
    }
  }

  // ---------- inodes ----------

  predicate IsInode(x: Item, oid: nat) {
    x.InodeItem? && x.oid == oid
  }

  /** The first inode record of the object has this value. */
  ghost predicate InodeIs(items: seq<Item>, oid: nat, value: seq<Byte>) {
    exists i :: 0 <= i < |items| && IsInode(items[i], oid) && items[i].value == value &&
      forall j :: 0 <= j < i ==> !IsInode(items[j], oid)
  }

  lemma {:induction false} InodeIsStep(items: seq<Item>, oid: nat, value: seq<Byte>)
    requires items != []
    ensures InodeIs(items, oid, value) <==> if IsInode(items[0], oid) then items[0].value == value else InodeIs(items[1..], oid, value)
  {
    var rest := items[1..];
    if !IsInode(items[0], oid) && InodeIs(items, oid, value) {
      var i :| 0 <= i < |items| && IsInode(items[i], oid) && items[i].value == value && forall j :: 0 <= j < i ==> !IsInode(items[j], oid);
      assert rest[i - 1] == items[i];
      forall j | 0 <= j < i - 1 ensures !IsInode(rest[j], oid) {
        assert rest[j] == items[j + 1];
      }
    }
    if !IsInode(items[0], oid) && InodeIs(rest, oid, value) {
      var i :| 0 <= i < |rest| && IsInode(rest[i], oid) && rest[i].value == value && forall j :: 0 <= j < i ==> !IsInode(rest[j], oid);
      assert items[i + 1] == rest[i];
      forall j | 0 <= j < i + 1 ensures !IsInode(items[j], oid) {
        assert j > 0 ==> items[j] == rest[j - 1];
      }
    }
  }

  lemma {:induction false} FirstInodeExact(items: seq<Item>, oid: nat, value: seq<Byte>)
    requires AllItemsFit(items)
    ensures FirstInode(PrintItems(items), oid) == Some(value) <==> InodeIs(items, oid, value)
  {
    if items != [] {
      PrintRest(items);
      ItemReads(items[0], oid);
      InodeIsStep(items, oid, value);
      FirstInodeExact(items[1..], oid, value);
    }
  }

  // ---------- paths ----------

  /** The words of a path, with a slash (47) between them. */
  function PathOf(words: seq<seq<Byte>>): seq<Byte> {
    if words == [] then [] else if |words| == 1 then words[0] else words[0] + [47] + PathOf(words[1..])
  }

  predicate IsWord(w: seq<Byte>) {
    w != [] && forall k :: 0 <= k < |w| ==> w[k] != 47
  }

  lemma {:induction false} WordIsComponent(w: seq<Byte>)
    requires IsWord(w)
    ensures Components(w) == [w]
  {
    var none: seq<Byte> := [];
    WordLenIs(w, none);
    assert w + none == w;
    assert w[..|w|] == w && w[|w|..] == [];
  }

  /** Joining words with slashes and splitting the path gives them back. */
  lemma {:induction false} WordsSplit(words: seq<seq<Byte>>)
    requires forall i :: 0 <= i < |words| ==> IsWord(words[i])
    ensures Components(PathOf(words)) == words
  {
    if words != [] {
      WordIsComponent(words[0]);
      if |words| > 1 {
        WordsSplit(words[1..]);
        ComponentsJoin(words[0], PathOf(words[1..]));
        assert words == [words[0]] + words[1..];
      } else {
        assert words == [words[0]];
      }
    }
  }

  /** Following the words from a directory, link by link, ends at `end`. */
  ghost predicate Reaches(items: seq<Item>, start: nat, words: seq<seq<Byte>>, end: nat)
    decreases |words|
  {
    if words == [] then start == end
    else exists mid: nat :: LeadsTo(items, start, words[0], mid) && Reaches(items, mid, words[1..], end)
  }

  lemma {:induction false} FollowExact(items: seq<Item>, xid: nat, start: nat, words: seq<seq<Byte>>, end: nat)
    requires AllItemsFit(items)
    ensures Follow(FlatRecords(PrintItems(items)), xid, start, words) == Ok(end) <==> Reaches(items, start, words, end)
    decreases |words|
  {
    if words != [] {
      ListingIsLinks(items, start);
      var next := FirstNamed(Links(items, start), words[0]);
      forall mid: nat ensures LeadsTo(items, start, words[0], mid) <==> next == Some(mid) {
        LookupExact(items, start, words[0], mid);
      }
      if next.Some? {
        FollowExact(items, xid, next.value, words[1..], end);
      }
    }
  }

  /**
   Opening a path of words in any list of records succeeds with an inode exactly
   when following the words from directory 2 ends at an object whose first inode
   record has that value.
   */
  lemma {:induction false} OpenedExact(items: seq<Item>, xid: nat, words: seq<seq<Byte>>, value: seq<Byte>)
    requires AllItemsFit(items) && forall i :: 0 <= i < |words| ==> IsWord(words[i])
    ensures Opened(FlatRecords(PrintItems(items)), xid, PathOf(words)) == Ok(value) <==>
              exists oid: nat :: Reaches(items, 2, words, oid) && InodeIs(items, oid, value)
  {
    var records := FlatRecords(PrintItems(items));
    WordsSplit(words);
    var end := Follow(records, xid, 2, words);
    forall oid: nat ensures Reaches(items, 2, words, oid) <==> end == Ok(oid) {
      FollowExact(items, xid, 2, words, oid);
    }
    if end.Ok? {
      FirstInodeExact(items, end.value, value);
    }
  }

  // ---------- paths that do not open ----------

  ghost predicate NoLink(items: seq<Item>, parent: nat, name: seq<Byte>) {
    forall i :: 0 <= i < |items| ==> !IsLink(items[i], parent, name)
  }

  ghost predicate NoInode(items: seq<Item>, oid: nat) {
    forall i :: 0 <= i < |items| ==> !IsInode(items[i], oid)
  }

  lemma {:induction false} LookupNone(items: seq<Item>, parent: nat, name: seq<Byte>)
    ensures FirstNamed(Links(items, parent), name) == None <==> NoLink(items, parent, name)
  {
    if items != [] {
      var one, rest := LinkOf(items[0], parent), Links(items[1..], parent);
      LookupNone(items[1..], parent, name);
      assert NoLink(items, parent, name) <==> !IsLink(items[0], parent, name) && NoLink(items[1..], parent, name);
      if one == [] {
        assert one + rest == rest;
      } else {
        assert (one + rest)[0] == one[0] && (one + rest)[1..] == rest;
      }
    }
  }

  lemma {:induction false} FirstInodeNone(items: seq<Item>, oid: nat)
    requires AllItemsFit(items)
    ensures FirstInode(PrintItems(items), oid) == None <==> NoInode(items, oid)
  {
    if items != [] {
      PrintRest(items);
      ItemReads(items[0], oid);
      FirstInodeNone(items[1..], oid);
      assert NoInode(items, oid) <==> !IsInode(items[0], oid) && NoInode(items[1..], oid);
    }
  }

  /** Following the words from a directory gets as far as `at`, which has no link of the next word. */
  ghost predicate StopsAt(items: seq<Item>, start: nat, words: seq<seq<Byte>>, at: nat)
    decreases |words|
  {
    words != [] &&
    if NoLink(items, start, words[0]) then at == start
    else exists mid: nat :: LeadsTo(items, start, words[0], mid) && StopsAt(items, mid, words[1..], at)
  }

  lemma {:induction false} FollowStops(items: seq<Item>, xid: nat, start: nat, words: seq<seq<Byte>>) returns (at: nat)
    requires AllItemsFit(items) && Follow(FlatRecords(PrintItems(items)), xid, start, words).Err?
    ensures StopsAt(items, start, words, at)
    ensures Follow(FlatRecords(PrintItems(items)), xid, start, words) == Err(OmapUnresolved(at, xid))
    decreases |words|
  {
    ListingIsLinks(items, start);
    LookupNone(items, start, words[0]);
    var next := FirstNamed(Links(items, start), words[0]);
    if next.Some? {
      LookupExact(items, start, words[0], next.value);
      at := FollowStops(items, xid, next.value, words[1..]);
    } else {
      at := start;
    }
  }

  /** A path that does not open names the object where it failed: a directory without the next word, or an end without an inode. */
  lemma {:induction false} OpenFailure(items: seq<Item>, xid: nat, words: seq<seq<Byte>>) returns (at: nat)
    requires AllItemsFit(items) && forall i :: 0 <= i < |words| ==> IsWord(words[i])
    requires Opened(FlatRecords(PrintItems(items)), xid, PathOf(words)).Err?
    ensures Opened(FlatRecords(PrintItems(items)), xid, PathOf(words)) == Err(OmapUnresolved(at, xid))
    ensures StopsAt(items, 2, words, at) || (Reaches(items, 2, words, at) && NoInode(items, at))
  {
    var records := FlatRecords(PrintItems(items));
    WordsSplit(words);
    var end := Follow(records, xid, 2, words);
    if end.Err? {
      at := FollowStops(items, xid, 2, words);
    } else {
      at := end.value;
      FollowExact(items, xid, 2, words, at);
      FirstInodeNone(items, at);
    }
  }

  // ---------- extents ----------

  /** The extents written for a stream, in order. */
  function ExtentItems(items: seq<Item>, stream: nat): seq<FileExtent>
    decreases |items|
  {
    if items == [] then [] else
    var sofar, x := ExtentItems(items[..|items| - 1], stream), items[|items| - 1];
    if x.ExtentItem? && x.stream == stream then sofar + [x.extent] else sofar
  }

  lemma {:induction false} ExtentsExact(items: seq<Item>, stream: nat)
    requires AllItemsFit(items)
    ensures ExtentsOf(PrintItems(items), stream) == ExtentItems(items, stream)
    decreases |items|
  {
    if items != [] {
      var n := |items| - 1;
      ExtentsExact(items[..n], stream);
      ItemReads(items[n], stream);
      assert PrintItems(items)[..n] == PrintItems(items[..n]);
    }
  }

  // ---------- on images ----------

  /** On any image whose walkable fs-tree holds written records: paths open, directories list and extents are as written. */
  lemma {:induction false} ImageShowsItems(img: seq<Byte>, bs: nat, vol: Volume, vek: Option<Cipher>, t: Tree, items: seq<Item>,
                                           words: seq<seq<Byte>>, value: seq<Byte>, oid: nat)
    requires HoldsTree(img, bs, vol, vek, t) && OidBounds(t) && AllItemsFit(items) && BTree.Records(t, ALL) == PrintItems(items)
    requires forall i :: 0 <= i < |words| ==> IsWord(words[i])
    ensures Opened(Walked(img, bs, vol, vek), vol.xid, PathOf(words)) == Ok(value) <==>
              exists end: nat :: Reaches(items, 2, words, end) && InodeIs(items, end, value)
    ensures DirOf(Walked(img, bs, vol, vek), oid) == Ok(Links(items, oid))
    ensures StreamExtents(img, bs, vol, vek, oid) == Ok(SortByOffset(ExtentItems(items, oid)))
  {
    ImageNavigationIsFlat(img, bs, vol, vek, t, PathOf(words));
    OpenedExact(items, vol.xid, words, value);
    ListingIsLinks(items, oid);
    ImageExtentsAreFlat(img, bs, vol, vek, t, oid);
    ExtentsExact(items, oid);
  }
}
