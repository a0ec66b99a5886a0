/** Object-map lookup by (oid, xid) (core/src/omap.rs). */
module Omap {
  import opened Results
  import opened Bytes
  import opened BTree

  datatype OmapEntry = OmapEntry(oid: nat, xid: nat, paddr: nat, size: nat, flags: nat)

  function KeyOid(key: seq<Byte>): nat { LeU64(key, 0) }
  function KeyXid(key: seq<Byte>): nat { LeU64(key, 8) }

  function Decode(e: Entry): OmapEntry {
    OmapEntry(KeyOid(e.key), KeyXid(e.key), LeU64(e.value, 8), LeU32(e.value, 4), LeU32(e.value, 0))
  }

  /** `(k_oid, k_xid).cmp(&(oid, xid)) == Greater`. */
  predicate Beyond(key: seq<Byte>, oid: nat, xid: nat) {
    KeyOid(key) > oid || (KeyOid(key) == oid && KeyXid(key) > xid)
  }

  function Target(oid: nat, xid: nat): Above {
    (key: seq<Byte>) => Beyond(key, oid, xid)
  }

  /** A mapping of the object made at or before the requested transaction. */
  predicate Candidate(e: Entry, oid: nat, xid: nat) {
    KeyOid(e.key) == oid && KeyXid(e.key) <= xid
  }

  /** The leaf callback: keep the newest candidate, the first one on a tie. */
  function Keep(best: Option<OmapEntry>, e: Entry, oid: nat, xid: nat): Option<OmapEntry> {
    if Candidate(e, oid, xid) && (best.None? || KeyXid(e.key) > best.value.xid) then Some(Decode(e)) else best
  }

  function Newest(es: seq<Entry>, oid: nat, xid: nat): Option<OmapEntry> {
    if es == [] then None else Keep(Newest(es[..|es| - 1], oid, xid), es[|es| - 1], oid, xid)
  }

  function OrUnresolved(best: Option<OmapEntry>, oid: nat, xid: nat): Result<OmapEntry> {
    match best
    case Some(e) => Ok(e)
    case None => Err(OmapUnresolved(oid, xid))
  }

  /** What resolving `oid` at `xid` through the tree rooted at `root` gives. */
  function Resolved(fetch: Fetch, root: nat, oid: nat, xid: nat): Result<OmapEntry> {
    var es :- Land(fetch, Target(oid, xid), root, MAX_DEPTH, {});
    OrUnresolved(Newest(es, oid, xid), oid, xid)
  }

  method Resolve(fetch: Fetch, root: nat, oid: nat, xid: nat) returns (r: Result<OmapEntry>)
    ensures r == Resolved(fetch, root, oid, xid)
  {
    var best: Option<OmapEntry> := None;
    var found := FindLeaf(fetch, root, Target(oid, xid));
    if found.Err? {
      return Err(found.error);
    }
    var es := found.value;
    for i := 0 to |es|
      invariant best == Newest(es[..i], oid, xid)
    {
      assert es[..i + 1][..i] == es[..i];
      if Candidate(es[i], oid, xid) && (best.None? || KeyXid(es[i].key) > best.value.xid) {
        best := Some(Decode(es[i]));
      }
    }
    assert es[..|es|] == es;
    return OrUnresolved(best, oid, xid);
  }

  // ---------- the reference: the floor of (oid, xid) in the full scan ----------

  /** e is a mapping of `oid` at or before `xid` in the scan, and no later one qualifies. */
  ghost predicate IsFloor(scan: seq<Entry>, oid: nat, xid: nat, e: OmapEntry) {
    && (exists i :: 0 <= i < |scan| && Candidate(scan[i], oid, xid) && Decode(scan[i]) == e)
    && (forall j :: 0 <= j < |scan| && Candidate(scan[j], oid, xid) ==> KeyXid(scan[j].key) <= e.xid)
  }

  ghost predicate HasCandidate(scan: seq<Entry>, oid: nat, xid: nat) {
    exists j :: 0 <= j < |scan| && Candidate(scan[j], oid, xid)
  }

  /** r is the floor of (oid, xid) in the scan, or reports that there is none. */
  ghost predicate FloorOf(scan: seq<Entry>, oid: nat, xid: nat, r: Result<OmapEntry>) {
    match r
    case Ok(e) => IsFloor(scan, oid, xid, e)
    case Err(e) => e == OmapUnresolved(oid, xid) && !HasCandidate(scan, oid, xid)
  }

  predicate KeyLeq(a: seq<Byte>, b: seq<Byte>) {
    KeyOid(a) < KeyOid(b) || (KeyOid(a) == KeyOid(b) && KeyXid(a) <= KeyXid(b))
  }

  ghost predicate Sorted(scan: seq<Entry>) {
    forall i, j :: 0 <= i <= j < |scan| ==> KeyLeq(scan[i].key, scan[j].key)
  }

  predicate SameKey(a: seq<Byte>, b: seq<Byte>) {
    KeyOid(a) == KeyOid(b) && KeyXid(a) == KeyXid(b)
  }

  ghost predicate KeysUnique(scan: seq<Entry>) {
    forall i, j :: 0 <= i < |scan| && 0 <= j < |scan| && SameKey(scan[i].key, scan[j].key) ==> scan[i] == scan[j]
  }

  /** Separator i is the smallest key of child i's subtree, throughout t. */
  ghost predicate MinSeparators(t: Tree)
    decreases t, 0
  {
    t.TNode? ==> MinSeparatorsAll(t.entries, t.kids, 0)
  }

  ghost predicate MinSeparatorsAll(es: seq<Entry>, kids: seq<Tree>, i: nat)
    decreases kids, 0
  {
    kids != [] ==>
      && i < |es|
      && Records(kids[0], ALL) != []
      && SameKey(es[i].key, Records(kids[0], ALL)[0].key)
      && MinSeparators(kids[0])
      && MinSeparatorsAll(es, kids[1..], i + 1)
  }

  /** A B-tree keyed by (oid, xid). */
  ghost predicate Ordered(t: Tree) {
    Sorted(Records(t, ALL)) && MinSeparators(t)
  }

  lemma {:induction false} MinSeparatorsAgree(t: Tree, oid: nat, xid: nat)
    requires MinSeparators(t)
    ensures SeparatorsAgree(t, Target(oid, xid))
    decreases t, 0
  {
    if t.TNode? {
      MinSeparatorsAgreeAll(t.entries, t.kids, 0, oid, xid);
    }
  }

  lemma {:induction false} MinSeparatorsAgreeAll(es: seq<Entry>, kids: seq<Tree>, i: nat, oid: nat, xid: nat)
    requires MinSeparatorsAll(es, kids, i)
    ensures SeparatorsAgreeAll(es, kids, i, Target(oid, xid))
    decreases kids, 0
  {
    if kids != [] {
      MinSeparatorsAgree(kids[0], oid, xid);
      MinSeparatorsAgreeAll(es, kids[1..], i + 1, oid, xid);
    }
  }

  /** The callback finds the floor of whatever it scans. */
  lemma {:induction false} NewestIsFloor(es: seq<Entry>, oid: nat, xid: nat)
    ensures FloorOf(es, oid, xid, OrUnresolved(Newest(es, oid, xid), oid, xid))
  {
    if es != [] {
      var n := |es| - 1;
      NewestIsFloor(es[..n], oid, xid);
      NewestStep(es, n, oid, xid);
    }
  }

  lemma {:induction false} NewestStep(es: seq<Entry>, n: nat, oid: nat, xid: nat)
    requires |es| == n + 1 && FloorOf(es[..n], oid, xid, OrUnresolved(Newest(es[..n], oid, xid), oid, xid))
    ensures FloorOf(es, oid, xid, OrUnresolved(Newest(es, oid, xid), oid, xid))
  {
    assert forall j :: 0 <= j < n ==> es[j] == es[..n][j];
    var old_, now := Newest(es[..n], oid, xid), Newest(es, oid, xid);
    if now.Some? {
      var w := if now == old_ then (var i :| 0 <= i < n && Candidate(es[..n][i], oid, xid) && Decode(es[..n][i]) == old_.value; i) else n;
      assert Candidate(es[w], oid, xid) && Decode(es[w]) == now.value;
    }
  }

  /** Entry i is a candidate, none of them is newer, and the ones before it are older. */
  ghost predicate FirstNewest(es: seq<Entry>, oid: nat, xid: nat, i: nat) {
    && i < |es| && Candidate(es[i], oid, xid)
    && (forall j :: 0 <= j < |es| && Candidate(es[j], oid, xid) ==> KeyXid(es[j].key) <= KeyXid(es[i].key))
    && (forall j :: 0 <= j < i && Candidate(es[j], oid, xid) ==> KeyXid(es[j].key) < KeyXid(es[i].key))
  }

  /** Among equals in the leaf found, the first is kept. */
  lemma {:induction false} NewestIsFirst(es: seq<Entry>, oid: nat, xid: nat) returns (i: nat)
    requires Newest(es, oid, xid).Some?
    ensures FirstNewest(es, oid, xid, i) && Newest(es, oid, xid) == Some(Decode(es[i]))
  {
    var n := |es| - 1;
    var front := es[..n];
    assert forall j :: 0 <= j < n ==> es[j] == front[j];
    NewestIsFloor(front, oid, xid);
    if Newest(es, oid, xid) == Newest(front, oid, xid) {
      i := NewestIsFirst(front, oid, xid);
    } else {
      i := n;
    }
  }

  /** Any part of a sorted scan that a lookup may land on has the same floor as the whole scan. */
  lemma {:induction false} FloorOfCover(scan: seq<Entry>, a: nat, b: nat, oid: nat, xid: nat, r: Result<OmapEntry>)
    requires Sorted(scan) && Covers(scan, a, b, Target(oid, xid))
    requires FloorOf(scan[a..b], oid, xid, r)
    ensures FloorOf(scan, oid, xid, r)
  {
    var part := scan[a..b];
    assert forall j :: 0 <= j < b - a ==> part[j] == scan[a + j];
    forall j | 0 <= j < |scan| && Candidate(scan[j], oid, xid)
      ensures exists i :: 0 <= i < |part| && Candidate(part[i], oid, xid) && KeyXid(scan[j].key) <= KeyXid(part[i].key)
    {
      assert !Target(oid, xid)(scan[j].key);
      if j < a {
        assert KeyLeq(scan[j].key, scan[a].key) && !Target(oid, xid)(scan[a].key);
        assert part[0] == scan[a];
        assert Candidate(part[0], oid, xid);
      } else {
        assert part[j - a] == scan[j];
      }
    }
    if r.Ok? {
      var i :| 0 <= i < |part| && Candidate(part[i], oid, xid) && Decode(part[i]) == r.value;
      assert scan[a + i] == part[i];
    }
  }

  /**
   On any walkable tree sorted by (oid, xid) whose separators are subtree
   minima, the one-path lookup returns the newest mapping of `oid` at or before
   `xid` among all leaf entries, and OmapUnresolved exactly when there is none.
   */
  lemma {:induction false} ResolveIsFloor(fetch: Fetch, t: Tree, oid: nat, xid: nat)
    requires Walkable(fetch, t, 0, {}) && Ordered(t)
    ensures FloorOf(Records(t, ALL), oid, xid, Resolved(fetch, t.id, oid, xid))
  {
    var scan, above := Records(t, ALL), Target(oid, xid);
    assert Monotone(scan, above) by {
      assert forall i, j :: 0 <= i <= j < |scan| ==> KeyLeq(scan[i].key, scan[j].key);
    }
    MinSeparatorsAgree(t, oid, xid);
    var a, b := LandOnTree(fetch, above, t, MAX_DEPTH, {});
    NewestIsFloor(scan[a..b], oid, xid);
    FloorOfCover(scan, a, b, oid, xid, Resolved(fetch, t.id, oid, xid));
  }

  /** With unique keys a scan has at most one floor. */
  lemma {:induction false} FloorUnique(scan: seq<Entry>, oid: nat, xid: nat, r: Result<OmapEntry>, s: Result<OmapEntry>)
    requires KeysUnique(scan) && FloorOf(scan, oid, xid, r) && FloorOf(scan, oid, xid, s)
    ensures r == s
  {
    if r.Ok? && s.Ok? {
      var i :| 0 <= i < |scan| && Candidate(scan[i], oid, xid) && Decode(scan[i]) == r.value;
      var j :| 0 <= j < |scan| && Candidate(scan[j], oid, xid) && Decode(scan[j]) == s.value;
      assert SameKey(scan[i].key, scan[j].key);
    }
  }

  /** Hence resolving is exactly scanning every leaf and keeping the newest candidate. */
  lemma {:induction false} ResolveRefinesScan(fetch: Fetch, t: Tree, oid: nat, xid: nat)
    requires Walkable(fetch, t, 0, {}) && Ordered(t) && KeysUnique(Records(t, ALL))
    ensures var full := Visit(fetch, ALL, t.id, 0, {});
            full.result.Ok? && Resolved(fetch, t.id, oid, xid) == OrUnresolved(Newest(full.out, oid, xid), oid, xid)
  {
    WalkOfTree(fetch, ALL, t, 0, {});
    ResolveIsFloor(fetch, t, oid, xid);
    NewestIsFloor(Records(t, ALL), oid, xid);
    FloorUnique(Records(t, ALL), oid, xid, Resolved(fetch, t.id, oid, xid), OrUnresolved(Newest(Records(t, ALL), oid, xid), oid, xid));
  }

  // ---------- the separators must be exact ----------

  function MapKey(oid: nat, xid: nat): seq<Byte> {
    LeBytes(oid, 8) + LeBytes(xid, 8)
  }

  lemma {:induction false} MapKeyReads(oid: nat, xid: nat)
    requires oid < U64 && xid < U64
    ensures KeyOid(MapKey(oid, xid)) == oid && KeyXid(MapKey(oid, xid)) == xid
  {
    Pow256Values();
    assert At(MapKey(oid, xid), 0, LeBytes(oid, 8) + LeBytes(xid, 8));
    AtSplit(MapKey(oid, xid), 0, LeBytes(oid, 8), LeBytes(xid, 8));
    ReadAt(MapKey(oid, xid), 0, oid, 8);
    ReadAt(MapKey(oid, xid), 8, xid, 8);
  }

  /** A mapping as it is stored: flags, size and block number behind the key. */
  function PrintMapping(m: OmapEntry): Entry {
    Entry(MapKey(m.oid, m.xid), LeBytes(m.flags, 4) + (LeBytes(m.size, 4) + LeBytes(m.paddr, 8)))
  }

  predicate MappingFits(m: OmapEntry) {
    m.oid < U64 && m.xid < U64 && m.paddr < U64 && m.size < 0x1_0000_0000 && m.flags < 0x1_0000_0000
  }

  lemma {:induction false} MappingReads(m: OmapEntry)
    requires MappingFits(m)
    ensures var e := PrintMapping(m);
            Decode(e) == m && KeyOid(e.key) == m.oid && KeyXid(e.key) == m.xid
  {
    MapKeyReads(m.oid, m.xid);
    var v := PrintMapping(m).value;
    Pow256Values();
    assert At(v, 0, LeBytes(m.flags, 4) + (LeBytes(m.size, 4) + LeBytes(m.paddr, 8)));
    FieldThen(v, 0, m.flags, 4, LeBytes(m.size, 4) + LeBytes(m.paddr, 8));
    FieldThen(v, 4, m.size, 4, LeBytes(m.paddr, 8));
    ReadAt(v, 8, m.paddr, 8);
  }

  function PrintMappings(ms: seq<OmapEntry>): (es: seq<Entry>)
    ensures |es| == |ms|
  {
    seq(|ms|, i requires 0 <= i < |ms| => PrintMapping(ms[i]))
  }

  ghost predicate AllMappingsFit(ms: seq<OmapEntry>) {
    forall m :: m in ms ==> MappingFits(m)
  }

  /** r is the newest of these mappings for the object at or before the transaction, or says that there is none. */
  ghost predicate NewestOf(ms: seq<OmapEntry>, oid: nat, xid: nat, r: Result<OmapEntry>) {
    match r
    case Ok(m) => m in ms && m.oid == oid && m.xid <= xid && forall n :: n in ms && n.oid == oid && n.xid <= xid ==> n.xid <= m.xid
    case Err(e) => e == OmapUnresolved(oid, xid) && forall n :: n in ms ==> n.oid != oid || n.xid > xid
  }

  lemma {:induction false} FloorOfPrinted(ms: seq<OmapEntry>, oid: nat, xid: nat, r: Result<OmapEntry>)
    requires AllMappingsFit(ms) && FloorOf(PrintMappings(ms), oid, xid, r)
    ensures NewestOf(ms, oid, xid, r)
  {
    var es := PrintMappings(ms);
    forall i | 0 <= i < |ms|
      ensures Decode(es[i]) == ms[i] && (Candidate(es[i], oid, xid) <==> ms[i].oid == oid && ms[i].xid <= xid)
      ensures KeyXid(es[i].key) == ms[i].xid
    {
      MappingReads(ms[i]);
    }
    forall n | n in ms && n.oid == oid && n.xid <= xid ensures r.Ok? && n.xid <= r.value.xid {
      var j :| 0 <= j < |ms| && ms[j] == n;
      assert Candidate(es[j], oid, xid);
    }
  }

  /**
   A tree that holds printed mappings resolves an object to the newest of them
   at or before the transaction: all five fields, or OmapUnresolved when none is.
   */
  lemma {:induction false} ResolvesPrinted(fetch: Fetch, t: Tree, ms: seq<OmapEntry>, oid: nat, xid: nat)
    requires Walkable(fetch, t, 0, {}) && Ordered(t) && AllMappingsFit(ms) && Records(t, ALL) == PrintMappings(ms)
    ensures NewestOf(ms, oid, xid, Resolved(fetch, t.id, oid, xid))
  {
    ResolveIsFloor(fetch, t, oid, xid);
    FloorOfPrinted(ms, oid, xid, Resolved(fetch, t.id, oid, xid));
  }

  ghost predicate MappingsAscend(ms: seq<OmapEntry>) {
    forall i, j :: 0 <= i < j < |ms| ==> ms[i].oid < ms[j].oid || (ms[i].oid == ms[j].oid && ms[i].xid < ms[j].xid)
  }

  lemma {:induction false} PrintedSorted(ms: seq<OmapEntry>)
    requires AllMappingsFit(ms) && MappingsAscend(ms)
    ensures Sorted(PrintMappings(ms)) && KeysUnique(PrintMappings(ms))
  {
    var es := PrintMappings(ms);
    forall i | 0 <= i < |es| ensures KeyOid(es[i].key) == ms[i].oid && KeyXid(es[i].key) == ms[i].xid {
      MappingReads(ms[i]);
    }
  }

  lemma {:induction false} ChildReads(key: seq<Byte>, id: nat)
    requires id < U64
    ensures Child(Entry(key, LeBytes(id, 8))) == id
  {
    Pow256Values();
    assert At(LeBytes(id, 8), 0, LeBytes(id, 8));
    ReadAt(LeBytes(id, 8), 0, id, 8);
  }

  /**
   Exact separators are needed, not just lower bounds: with two sorted leaves
   under a root, and the second separator anywhere below the second leaf's only
   key, a lookup between the two is reported unresolved although the full scan
   holds a mapping it should return.
   */
  lemma {:induction false} LowSeparatorLoses(fetch: Fetch, oid: nat, x1: nat, sep: nat, xid: nat, x2: nat, v1: seq<Byte>, v2: seq<Byte>)
    requires oid < U64 && x1 < sep <= xid < x2 < U64
    requires fetch(1) == Ok(Index([Entry(MapKey(oid, x1), LeBytes(2, 8)), Entry(MapKey(oid, sep), LeBytes(3, 8))]))
    requires fetch(2) == Ok(Leaf([Entry(MapKey(oid, x1), v1)])) && fetch(3) == Ok(Leaf([Entry(MapKey(oid, x2), v2)]))
    ensures Resolved(fetch, 1, oid, xid) == Err(OmapUnresolved(oid, xid))
    ensures var full := Visit(fetch, ALL, 1, 0, {});
            full.result.Ok? && Sorted(full.out) && HasCandidate(full.out, oid, xid)
  {
    var a, b := Entry(MapKey(oid, x1), v1), Entry(MapKey(oid, x2), v2);
    var es := [Entry(MapKey(oid, x1), LeBytes(2, 8)), Entry(MapKey(oid, sep), LeBytes(3, 8))];
    MapKeyReads(oid, x1);
    MapKeyReads(oid, sep);
    MapKeyReads(oid, x2);
    ChildReads(es[0].key, 2);
    ChildReads(es[1].key, 3);
    LandsOnSecond(fetch, es, [b], oid, xid);
    ScanOfTwo(fetch, es, a, b, oid, xid);
  }

  lemma {:induction false} ScanOfTwo(fetch: Fetch, es: seq<Entry>, a: Entry, b: Entry, oid: nat, xid: nat)
    requires fetch(1) == Ok(Index(es)) && |es| == 2 && Child(es[0]) == 2 && Child(es[1]) == 3
    requires fetch(2) == Ok(Leaf([a])) && fetch(3) == Ok(Leaf([b]))
    requires KeyLeq(a.key, b.key) && Candidate(a, oid, xid)
    ensures var full := Visit(fetch, ALL, 1, 0, {});
            full.result.Ok? && Sorted(full.out) && HasCandidate(full.out, oid, xid)
  {
    var t := TNode(1, es, [TLeaf(2, [a]), TLeaf(3, [b])]);
    TwoLeaves(fetch, es, a, b, t);
    WalkOfTree(fetch, ALL, t, 0, {});
    var out := Visit(fetch, ALL, 1, 0, {}).out;
    assert out == [a, b] && out[0] == a;
  }

  lemma {:induction false} LandsOnSecond(fetch: Fetch, es: seq<Entry>, leaf: seq<Entry>, oid: nat, xid: nat)
    requires fetch(1) == Ok(Index(es)) && |es| == 2 && Child(es[1]) == 3 && fetch(3) == Ok(Leaf(leaf)) && |leaf| == 1
    requires !Beyond(es[0].key, oid, xid) && !Beyond(es[1].key, oid, xid) && !Candidate(leaf[0], oid, xid)
    ensures Resolved(fetch, 1, oid, xid) == Err(OmapUnresolved(oid, xid))
  {
    var above := Target(oid, xid);
    assert Pick(es, above, 2) == 1;
    assert Pick(es, above, 1) == 1;
    assert Pick(es, above, 0) == 1;
    var none: set<nat> := {};
    LandStep(fetch, above, 1, es, 1, MAX_DEPTH, none);
    assert Land(fetch, above, 3, MAX_DEPTH - 1, none + {1}) == Ok(leaf);
    assert Land(fetch, above, 1, MAX_DEPTH, none) == Ok(leaf);
    assert leaf[..0] == [];
    assert Newest(leaf[..0], oid, xid) == None;
    assert Newest(leaf, oid, xid) == None;
  }

  lemma {:induction false} TwoLeaves(fetch: Fetch, es: seq<Entry>, a: Entry, b: Entry, t: Tree)
    requires fetch(1) == Ok(Index(es)) && |es| == 2 && Child(es[0]) == 2 && Child(es[1]) == 3
    requires fetch(2) == Ok(Leaf([a])) && fetch(3) == Ok(Leaf([b])) && t == TNode(1, es, [TLeaf(2, [a]), TLeaf(3, [b])])
    ensures Walkable(fetch, t, 0, {}) && Records(t, ALL) == [a, b]
  {
    var first, second := TLeaf(2, [a]), TLeaf(3, [b]);
    var kids, last, none: seq<Tree> := [first, second], [second], [];
    assert kids[1..] == last && last[1..] == none;
    assert UnfoldsAll(fetch, es, none, 2) && UnfoldsAll(fetch, es, last, 1) && UnfoldsAll(fetch, es, kids, 0);
    assert Ids(first, ALL) == {2} && Ids(second, ALL) == {3};
    assert IdsAll(es, none, 2, ALL) == {} && IdsAll(es, last, 1, ALL) == {3};
    assert IdsAll(es, kids, 0, ALL) == {2} + {3};
    assert Distinct(first) && Distinct(second);
    assert DistinctAll(es, none, 2);
    assert DistinctAll(es, last, 1);
    assert DistinctAll(es, kids, 0);
    assert RecordsAll(es, none, 2, ALL) == [] && RecordsAll(es, last, 1, ALL) == [b];
    assert Records(first, ALL) == [a] && Records(second, ALL) == [b];
    assert RecordsAll(es, kids, 0, ALL) == [a] + [b];
    assert t == TNode(1, es, kids) && Records(t, ALL) == RecordsAll(es, kids, 0, ALL);
    assert Ids(t, ALL) == {1} + ({2} + {3});
    assert LevelsAll(none) == 0 && LevelsAll(last) == 1 && LevelsAll(kids) == 1;
  }
}
