/** Exactly which separators make the one-path lookup right (core/src/btree.rs, core/src/omap.rs). */
module Separators {
  import opened Results
  import opened Bytes
  import opened BTree
  import opened Omap

  // ---------- the leaf a lookup lands on, read off the tree ----------

  function Landing(t: Tree, above: Above): seq<Entry>
    decreases t
  {
    match t
    case TLeaf(_, es) => es
    case TNode(_, es, kids) =>
      if es == [] || |kids| != |es| then []
      else
        PickInRange(es, above, 0);
        Landing(kids[Pick(es, above, 0)], above)
  }

  lemma {:induction false} LandIsLanding(fetch: Fetch, above: Above, t: Tree, steps: nat, visited: set<nat>)
    requires Unfolds(fetch, t) && Distinct(t) && Levels(t) <= steps && Ids(t, ALL) !! visited
    ensures Land(fetch, above, t.id, steps, visited) == Ok(Landing(t, above))
    decreases t
  {
    assert t.id in Ids(t, ALL);
    if t.TNode? && t.entries != [] {
      var es, kids := t.entries, t.kids;
      PickInRange(es, above, 0);
      var k := Pick(es, above, 0);
      KidCount(fetch, es, kids, 0);
      KidFacts(fetch, es, kids, 0, k);
      LandStep(fetch, above, t.id, es, k, steps, visited);
      StillClear(Ids(kids[k], ALL), Ids(t, ALL), visited, t.id);
      LandIsLanding(fetch, above, kids[k], steps - 1, visited + {t.id});
    }
  }

  // ---------- order of records across children ----------

  predicate KeyLt(a: seq<Byte>, b: seq<Byte>) {
    !KeyLeq(b, a)
  }

  /** Ascending with unique keys. */
  ghost predicate Strict(scan: seq<Entry>) {
    forall i, j :: 0 <= i < j < |scan| ==> KeyLt(scan[i].key, scan[j].key)
  }

  lemma {:induction false} StrictParts(a: seq<Entry>, b: seq<Entry>)
    requires Strict(a + b)
    ensures Strict(a) && Strict(b)
  {
    forall i, j | 0 <= i < j < |a| ensures KeyLt(a[i].key, a[j].key) {
      assert (a + b)[i] == a[i] && (a + b)[j] == a[j];
    }
    forall i, j | 0 <= i < j < |b| ensures KeyLt(b[i].key, b[j].key) {
      assert (a + b)[|a| + i] == b[i] && (a + b)[|a| + j] == b[j];
    }
  }

  lemma {:induction false} StrictAcross(a: seq<Entry>, b: seq<Entry>, x: Entry, y: Entry)
    requires Strict(a + b) && x in a && y in b
    ensures KeyLt(x.key, y.key)
  {
    var i :| 0 <= i < |a| && a[i] == x;
    var j :| 0 <= j < |b| && b[j] == y;
    assert (a + b)[i] == x && (a + b)[|a| + j] == y;
  }

  lemma {:induction false} InKids(es: seq<Entry>, kids: seq<Tree>, i: nat, e: Entry) returns (k: nat)
    requires e in RecordsAll(es, kids, i, ALL)
    ensures k < |kids| && e in Records(kids[k], ALL)
    decreases kids
  {
    if e in Records(kids[0], ALL) {
      k := 0;
    } else {
      k := InKids(es, kids[1..], i + 1, e);
      k := k + 1;
    }
  }

  lemma {:induction false} KidIn(es: seq<Entry>, kids: seq<Tree>, i: nat, k: nat, e: Entry)
    requires k < |kids| && e in Records(kids[k], ALL)
    ensures e in RecordsAll(es, kids, i, ALL)
    decreases kids
  {
    if k > 0 {
      KidIn(es, kids[1..], i + 1, k - 1, e);
    }
  }

  lemma {:induction false} KidStrict(es: seq<Entry>, kids: seq<Tree>, i: nat, k: nat)
    requires k < |kids| && Strict(RecordsAll(es, kids, i, ALL))
    ensures Strict(Records(kids[k], ALL))
    decreases kids
  {
    StrictParts(Records(kids[0], ALL), RecordsAll(es, kids[1..], i + 1, ALL));
    if k > 0 {
      KidStrict(es, kids[1..], i + 1, k - 1);
    }
  }

  lemma {:induction false} KidsOrdered(es: seq<Entry>, kids: seq<Tree>, i: nat, j: nat, k: nat, x: Entry, y: Entry)
    requires j < k < |kids| && Strict(RecordsAll(es, kids, i, ALL))
    requires x in Records(kids[j], ALL) && y in Records(kids[k], ALL)
    ensures KeyLt(x.key, y.key)
    decreases kids
  {
    var head, tail := Records(kids[0], ALL), RecordsAll(es, kids[1..], i + 1, ALL);
    if j == 0 {
      KidIn(es, kids[1..], i + 1, k - 1, y);
      StrictAcross(head, tail, x, y);
    } else {
      StrictParts(head, tail);
      KidsOrdered(es, kids[1..], i + 1, j - 1, k - 1, x, y);
    }
  }

  function First(rs: seq<Entry>): Entry
    requires rs != []
  {
    rs[0]
  }

  function Last(rs: seq<Entry>): Entry
    requires rs != []
  {
    rs[|rs| - 1]
  }

  lemma {:induction false} Ends(rs: seq<Entry>, e: Entry)
    requires Strict(rs) && e in rs
    ensures KeyLeq(First(rs).key, e.key) && KeyLeq(e.key, Last(rs).key)
  {
    var i :| 0 <= i < |rs| && rs[i] == e;
    assert i == 0 || KeyLt(rs[0].key, rs[i].key);
    assert i == |rs| - 1 || KeyLt(rs[i].key, rs[|rs| - 1].key);
  }

  // ---------- what a part of the scan must hold ----------

  /** e is a candidate at least as new as c. */
  predicate Beats(e: Entry, c: Entry, oid: nat, xid: nat) {
    Candidate(e, oid, xid) && KeyXid(c.key) <= KeyXid(e.key)
  }

  predicate CandidateIn(c: Entry, scan: seq<Entry>, oid: nat, xid: nat) {
    c in scan && Candidate(c, oid, xid)
  }

  /** The part holds a candidate as new as any in the scan. */
  ghost predicate Serves(part: seq<Entry>, scan: seq<Entry>, oid: nat, xid: nat) {
    forall c: Entry :: CandidateIn(c, scan, oid, xid) ==> exists e: Entry :: e in part && Beats(e, c, oid, xid)
  }

  /** The floor, said of the scan's records rather than its positions. */
  ghost predicate FloorIn(scan: seq<Entry>, oid: nat, xid: nat, r: Result<OmapEntry>) {
    match r
    case Ok(f) =>
      && (exists e: Entry :: CandidateIn(e, scan, oid, xid) && Decode(e) == f)
      && (forall c: Entry :: CandidateIn(c, scan, oid, xid) ==> KeyXid(c.key) <= f.xid)
    case Err(err) => err == OmapUnresolved(oid, xid) && forall c: Entry :: !CandidateIn(c, scan, oid, xid)
  }

  lemma {:induction false} FloorByRecord(scan: seq<Entry>, oid: nat, xid: nat, r: Result<OmapEntry>)
    ensures FloorOf(scan, oid, xid, r) <==> FloorIn(scan, oid, xid, r)
  {
    if FloorIn(scan, oid, xid, r) && r.Ok? {
      var e: Entry :| CandidateIn(e, scan, oid, xid) && Decode(e) == r.value;
      var i :| 0 <= i < |scan| && scan[i] == e;
    }
    assert forall j :: 0 <= j < |scan| && Candidate(scan[j], oid, xid) ==> CandidateIn(scan[j], scan, oid, xid);
  }

  /** Keeping the newest candidate of a part gives the floor of the whole scan exactly when the part serves it. */
  lemma {:induction false} FloorIffServes(part: seq<Entry>, scan: seq<Entry>, oid: nat, xid: nat)
    requires forall e: Entry :: e in part ==> e in scan
    ensures FloorOf(scan, oid, xid, OrUnresolved(Newest(part, oid, xid), oid, xid)) <==> Serves(part, scan, oid, xid)
  {
    var r := OrUnresolved(Newest(part, oid, xid), oid, xid);
    NewestIsFloor(part, oid, xid);
    FloorByRecord(part, oid, xid, r);
    FloorByRecord(scan, oid, xid, r);
    if FloorIn(scan, oid, xid, r) {
      FloorServes(part, scan, oid, xid, r);
    }
    if Serves(part, scan, oid, xid) {
      ServedIsFloor(part, scan, oid, xid, r);
    }
  }

  lemma {:induction false} ServedIsFloor(part: seq<Entry>, scan: seq<Entry>, oid: nat, xid: nat, r: Result<OmapEntry>)
    requires (forall e: Entry :: e in part ==> e in scan) && FloorIn(part, oid, xid, r) && Serves(part, scan, oid, xid)
    ensures FloorIn(scan, oid, xid, r)
  {
    forall c: Entry | CandidateIn(c, scan, oid, xid) ensures r.Ok? && KeyXid(c.key) <= r.value.xid {
      var e: Entry :| e in part && Beats(e, c, oid, xid);
      assert CandidateIn(e, part, oid, xid);
    }
    if r.Ok? {
      var e: Entry :| CandidateIn(e, part, oid, xid) && Decode(e) == r.value;
      assert CandidateIn(e, scan, oid, xid);
    }
  }

  lemma {:induction false} FloorServes(part: seq<Entry>, scan: seq<Entry>, oid: nat, xid: nat, r: Result<OmapEntry>)
    requires FloorIn(part, oid, xid, r) && FloorIn(scan, oid, xid, r)
    ensures Serves(part, scan, oid, xid)
  {
    if r.Ok? {
      var e: Entry :| CandidateIn(e, part, oid, xid) && Decode(e) == r.value;
      assert forall c: Entry :: CandidateIn(c, scan, oid, xid) ==> Beats(e, c, oid, xid);
    }
  }

  lemma {:induction false} LandingInside(t: Tree, above: Above, e: Entry)
    requires e in Landing(t, above)
    ensures e in Records(t, ALL)
    decreases t
  {
    if t.TNode? {
      PickInRange(t.entries, above, 0);
      var k := Pick(t.entries, above, 0);
      LandingInside(t.kids[k], above, e);
      KidIn(t.entries, t.kids, 0, k, e);
    }
  }

  // ---------- the exact condition ----------

  /** One child per separator, and no empty subtree. */
  ghost predicate Full(t: Tree)
    decreases t
  {
    t.TNode? ==>
      && |t.kids| == |t.entries|
      && forall i :: 0 <= i < |t.kids| ==> Records(t.kids[i], ALL) != [] && Full(t.kids[i])
  }

  /** Some separator up to i is child i's first key f, or belongs to a later object than record l. */
  predicate Stops(es: seq<Entry>, i: nat, l: Entry, f: Entry)
    requires i < |es|
  {
    exists j :: 0 <= j <= i && (SameKey(es[j].key, f.key) || KeyOid(es[j].key) > KeyOid(l.key))
  }

  /**
   Separators 0..i let every lookup for a record of child i through to it, and
   stop every lookup that the last record of child i - 1 must answer.
   */
  ghost predicate Separated(es: seq<Entry>, i: nat, prev: seq<Entry>, kid: seq<Entry>)
    requires i < |es| && prev != [] && kid != []
  {
    && (forall j :: 0 <= j <= i ==> KeyLeq(es[j].key, First(kid).key))
    && Stops(es, i, Last(prev), First(kid))
  }

  ghost predicate ExactSeparators(t: Tree)
    requires Full(t)
    decreases t
  {
    t.TNode? ==> forall i :: 0 <= i < |t.kids| ==>
      && ExactSeparators(t.kids[i])
      && (i > 0 ==> Separated(t.entries, i, Records(t.kids[i - 1], ALL), Records(t.kids[i], ALL)))
  }

  /** Looking up (oid, xid) finds what the whole tree holds. */
  ghost predicate ServedAt(t: Tree, oid: nat, xid: nat) {
    Serves(Landing(t, Target(oid, xid)), Records(t, ALL), oid, xid)
  }

  // ---------- the condition suffices ----------

  /** A candidate in a child other than the one picked is beaten by one in the child picked. */
  lemma {:induction false} PickedBeats(t: Tree, oid: nat, xid: nat, k: nat, j: nat, c: Entry) returns (e: Entry)
    requires t.TNode? && t.entries != [] && Full(t) && ExactSeparators(t) && Strict(Records(t, ALL))
    requires k == Pick(t.entries, Target(oid, xid), 0) && j < |t.kids|
    requires c in Records(t.kids[j], ALL) && Candidate(c, oid, xid)
    ensures k < |t.kids| && e in Records(t.kids[k], ALL) && Beats(e, c, oid, xid)
  {
    var es, kids := t.entries, t.kids;
    PickInRange(es, Target(oid, xid), 0);
    if j == k {
      e := c;
    } else if j > k {
      e := c;
      LaterIsBeyond(t, oid, xid, k, j, c);
    } else {
      e := First(Records(kids[k], ALL));
      KidsOrdered(es, kids, 0, j, k, c, e);
      EarlierIsOlder(t, oid, xid, k, j, c);
    }
  }

  lemma {:induction false} LaterIsBeyond(t: Tree, oid: nat, xid: nat, k: nat, j: nat, c: Entry)
    requires t.TNode? && Full(t) && ExactSeparators(t) && Strict(Records(t, ALL)) && k < j < |t.kids|
    requires Beyond(t.entries[0].key, oid, xid) || Beyond(t.entries[k + 1].key, oid, xid)
    requires c in Records(t.kids[j], ALL)
    ensures !Candidate(c, oid, xid)
  {
    var es, kids := t.entries, t.kids;
    KidStrict(es, kids, 0, j);
    Ends(Records(kids[j], ALL), c);
    assert Separated(es, j, Records(kids[j - 1], ALL), Records(kids[j], ALL));
    assert KeyLeq(es[0].key, c.key) && KeyLeq(es[k + 1].key, c.key);
  }

  lemma {:induction false} EarlierIsOlder(t: Tree, oid: nat, xid: nat, k: nat, j: nat, c: Entry)
    requires t.TNode? && Full(t) && ExactSeparators(t) && Strict(Records(t, ALL)) && j < k < |t.kids|
    requires forall i :: 0 <= i <= k ==> !Beyond(t.entries[i].key, oid, xid)
    requires c in Records(t.kids[j], ALL) && Candidate(c, oid, xid)
    ensures !Beyond(First(Records(t.kids[k], ALL)).key, oid, xid)
  {
    var es, kids := t.entries, t.kids;
    var prev, kid := Records(kids[k - 1], ALL), Records(kids[k], ALL);
    KidStrict(es, kids, 0, k - 1);
    if j < k - 1 {
      KidsOrdered(es, kids, 0, j, k - 1, c, Last(prev));
    } else {
      Ends(prev, c);
    }
    assert Separated(es, k, prev, kid);
    var i :| 0 <= i <= k && (SameKey(es[i].key, First(kid).key) || KeyOid(es[i].key) > KeyOid(Last(prev).key));
  }

  lemma {:induction false} ServesItself(scan: seq<Entry>, oid: nat, xid: nat)
    ensures Serves(scan, scan, oid, xid)
  {
    forall c: Entry | CandidateIn(c, scan, oid, xid) ensures exists e: Entry :: e in scan && Beats(e, c, oid, xid) {
      assert Beats(c, c, oid, xid);
    }
  }

  lemma {:induction false} ExactServes(t: Tree, oid: nat, xid: nat)
    requires Full(t) && ExactSeparators(t) && Strict(Records(t, ALL))
    ensures ServedAt(t, oid, xid)
    decreases t
  {
    if t.TNode? && t.entries != [] {
      var es, kids, above := t.entries, t.kids, Target(oid, xid);
      PickInRange(es, above, 0);
      var k := Pick(es, above, 0);
      KidStrict(es, kids, 0, k);
      ExactServes(kids[k], oid, xid);
      forall c: Entry | CandidateIn(c, Records(t, ALL), oid, xid)
        ensures exists e: Entry :: e in Landing(t, above) && Beats(e, c, oid, xid)
      {
        var j := InKids(es, kids, 0, c);
        var d := PickedBeats(t, oid, xid, k, j, c);
        assert CandidateIn(d, Records(kids[k], ALL), oid, xid);
        var e: Entry :| e in Landing(kids[k], above) && Beats(e, d, oid, xid);
        assert Beats(e, c, oid, xid);
      }
    } else {
      assert Landing(t, Target(oid, xid)) == Records(t, ALL);
      ServesItself(Records(t, ALL), oid, xid);
    }
  }

  // ---------- the condition is needed ----------

  /** The target lies between the first and the last key of the scan. */
  ghost predicate InSpan(scan: seq<Entry>, oid: nat, xid: nat) {
    scan != [] && !Beyond(First(scan).key, oid, xid) &&
    (oid < KeyOid(Last(scan).key) || (oid == KeyOid(Last(scan).key) && xid <= KeyXid(Last(scan).key)))
  }

  /** Every lookup within the tree's own keys is served. */
  ghost predicate ServedWithin(t: Tree) {
    forall oid: nat, xid: nat :: oid < U64 && xid < U64 && InSpan(Records(t, ALL), oid, xid) ==> ServedAt(t, oid, xid)
  }

  lemma {:induction false} KeyRange(key: seq<Byte>)
    ensures KeyOid(key) < U64 && KeyXid(key) < U64
  {
    Pow256Values();
    LeAtBound(key, 0, 8);
    LeAtBound(key, 8, 8);
  }

  /** Nothing in child k or another can beat a record of a later child at its own key. */
  lemma {:induction false} OwnKeyUnbeaten(t: Tree, k: nat, i: nat, e: Entry)
    requires t.TNode? && Full(t) && Strict(Records(t, ALL)) && k < i < |t.kids|
    requires e in Records(t.kids[k], ALL)
    ensures var f := First(Records(t.kids[i], ALL)); !Beats(e, f, KeyOid(f.key), KeyXid(f.key))
  {
    KidsOrdered(t.entries, t.kids, 0, k, i, e, First(Records(t.kids[i], ALL)));
  }

  lemma {:induction false} SpanOfKid(t: Tree, i: nat, oid: nat, xid: nat)
    requires t.TNode? && Full(t) && Strict(Records(t, ALL)) && i < |t.kids| && InSpan(Records(t.kids[i], ALL), oid, xid)
    ensures InSpan(Records(t, ALL), oid, xid)
  {
    var kid := Records(t.kids[i], ALL);
    KidIn(t.entries, t.kids, 0, i, First(kid));
    KidIn(t.entries, t.kids, 0, i, Last(kid));
    Ends(Records(t, ALL), First(kid));
    Ends(Records(t, ALL), Last(kid));
  }

  /** A separator above child i's first key hides that record. */
  lemma {:induction false} HighSeparatorHides(t: Tree, i: nat, j: nat)
    requires t.TNode? && Full(t) && Strict(Records(t, ALL)) && ServedWithin(t)
    requires 0 < i < |t.kids| && j <= i
    ensures KeyLeq(t.entries[j].key, First(Records(t.kids[i], ALL)).key)
  {
    var es, kids := t.entries, t.kids;
    var f := First(Records(kids[i], ALL));
    var oid, xid := KeyOid(f.key), KeyXid(f.key);
    KeyRange(f.key);
    KidStrict(es, kids, 0, i);
    Ends(Records(kids[i], ALL), f);
    SpanOfKid(t, i, oid, xid);
    KidIn(es, kids, 0, i, f);
    assert ServedAt(t, oid, xid) && CandidateIn(f, Records(t, ALL), oid, xid);
    var above := Target(oid, xid);
    var e: Entry :| e in Landing(t, above) && Beats(e, f, oid, xid);
    PickInRange(es, above, 0);
    var k := Pick(es, above, 0);
    LandingInside(kids[k], above, e);
    if k < i {
      OwnKeyUnbeaten(t, k, i, e);
    }
  }

  /** The largest transaction of object oid among key l and separators 0..i. */
  lemma {:induction false} Highest(es: seq<Entry>, i: nat, l: Entry, f: Entry) returns (xid: nat)
    requires i < |es| && KeyLt(l.key, f.key)
    requires forall j :: 0 <= j <= i ==> KeyLt(es[j].key, f.key) && KeyOid(es[j].key) <= KeyOid(l.key)
    ensures KeyXid(l.key) <= xid < U64 && Beyond(f.key, KeyOid(l.key), xid)
    ensures forall j :: 0 <= j <= i ==> !Beyond(es[j].key, KeyOid(l.key), xid)
    decreases i
  {
    if i == 0 {
      xid := KeyXid(l.key);
    } else {
      xid := Highest(es, i - 1, l, f);
    }
    KeyRange(l.key);
    KeyRange(es[i].key);
    if KeyOid(es[i].key) == KeyOid(l.key) && KeyXid(es[i].key) > xid {
      xid := KeyXid(es[i].key);
    }
  }

  lemma {:induction false} LateUnbeaten(t: Tree, k: nat, i: nat, e: Entry, oid: nat, xid: nat)
    requires t.TNode? && Full(t) && Strict(Records(t, ALL)) && i <= k < |t.kids|
    requires e in Records(t.kids[k], ALL) && Beyond(First(Records(t.kids[i], ALL)).key, oid, xid)
    ensures !Candidate(e, oid, xid)
  {
    if i < k {
      KidsOrdered(t.entries, t.kids, 0, i, k, First(Records(t.kids[i], ALL)), e);
    } else {
      KidStrict(t.entries, t.kids, 0, k);
      Ends(Records(t.kids[k], ALL), e);
    }
  }

  /** Separators that are all low lose the last record of child i - 1. */
  lemma {:induction false} LowSeparatorsLose(t: Tree, i: nat)
    requires t.TNode? && Full(t) && Strict(Records(t, ALL)) && ServedWithin(t) && 0 < i < |t.kids|
    requires forall j :: 0 <= j <= i ==> KeyLeq(t.entries[j].key, First(Records(t.kids[i], ALL)).key)
    ensures Stops(t.entries, i, Last(Records(t.kids[i - 1], ALL)), First(Records(t.kids[i], ALL)))
  {
    var es, kids := t.entries, t.kids;
    var l, f := Last(Records(kids[i - 1], ALL)), First(Records(kids[i], ALL));
    KidsOrdered(es, kids, 0, i - 1, i, l, f);
    if !Stops(es, i, l, f) {
      var xid := Highest(es, i, l, f);
      var oid := KeyOid(l.key);
      KeyRange(l.key);
      BetweenKids(t, i, oid, xid);
      KidIn(es, kids, 0, i - 1, l);
      assert ServedAt(t, oid, xid) && CandidateIn(l, Records(t, ALL), oid, xid);
      var above := Target(oid, xid);
      var e: Entry :| e in Landing(t, above) && Beats(e, l, oid, xid);
      PickInRange(es, above, 0);
      var k := Pick(es, above, 0);
      LandingInside(kids[k], above, e);
      LateUnbeaten(t, k, i, e, oid, xid);
    }
  }

  lemma {:induction false} BetweenKids(t: Tree, i: nat, oid: nat, xid: nat)
    requires t.TNode? && Full(t) && Strict(Records(t, ALL)) && 0 < i < |t.kids|
    requires !Beyond(Last(Records(t.kids[i - 1], ALL)).key, oid, xid) && Beyond(First(Records(t.kids[i], ALL)).key, oid, xid)
    ensures InSpan(Records(t, ALL), oid, xid)
  {
    var l, f := Last(Records(t.kids[i - 1], ALL)), First(Records(t.kids[i], ALL));
    KidIn(t.entries, t.kids, 0, i - 1, l);
    KidIn(t.entries, t.kids, 0, i, f);
    Ends(Records(t, ALL), l);
    Ends(Records(t, ALL), f);
  }

  lemma {:induction false} NeedsSeparated(t: Tree, i: nat)
    requires t.TNode? && Full(t) && Strict(Records(t, ALL)) && ServedWithin(t) && 0 < i < |t.kids|
    ensures Separated(t.entries, i, Records(t.kids[i - 1], ALL), Records(t.kids[i], ALL))
  {
    forall j | 0 <= j <= i ensures KeyLeq(t.entries[j].key, First(Records(t.kids[i], ALL)).key) {
      HighSeparatorHides(t, i, j);
    }
    LowSeparatorsLose(t, i);
  }

  /** Within child i's own keys a lookup goes to child i. */
  lemma {:induction false} RoutedToKid(t: Tree, i: nat, oid: nat, xid: nat)
    requires t.TNode? && Full(t) && Strict(Records(t, ALL)) && i < |t.kids| && InSpan(Records(t.kids[i], ALL), oid, xid)
    requires forall k :: 0 < k < |t.kids| ==> Separated(t.entries, k, Records(t.kids[k - 1], ALL), Records(t.kids[k], ALL))
    ensures Pick(t.entries, Target(oid, xid), 0) == i
  {
    var es, kids, above := t.entries, t.kids, Target(oid, xid);
    PickInRange(es, above, 0);
    var k := Pick(es, above, 0);
    if i > 0 {
      assert Separated(es, i, Records(kids[i - 1], ALL), Records(kids[i], ALL));
      assert forall j :: 0 <= j <= i ==> !above(es[j].key);
    }
    if i + 1 < |kids| {
      var kid, next := Records(kids[i], ALL), Records(kids[i + 1], ALL);
      KidsOrdered(es, kids, 0, i, i + 1, Last(kid), First(next));
      assert Separated(es, i + 1, kid, next);
      var j :| 0 <= j <= i + 1 && (SameKey(es[j].key, First(next).key) || KeyOid(es[j].key) > KeyOid(Last(kid).key));
      assert above(es[j].key);
    }
  }

  lemma {:induction false} KidServed(t: Tree, i: nat, oid: nat, xid: nat)
    requires t.TNode? && Full(t) && Strict(Records(t, ALL)) && ServedWithin(t) && i < |t.kids|
    requires oid < U64 && xid < U64 && InSpan(Records(t.kids[i], ALL), oid, xid)
    requires forall k :: 0 < k < |t.kids| ==> Separated(t.entries, k, Records(t.kids[k - 1], ALL), Records(t.kids[k], ALL))
    ensures ServedAt(t.kids[i], oid, xid)
  {
    SpanOfKid(t, i, oid, xid);
    assert ServedAt(t, oid, xid);
    RoutedToKid(t, i, oid, xid);
    forall c: Entry | CandidateIn(c, Records(t.kids[i], ALL), oid, xid)
      ensures exists e: Entry :: e in Landing(t.kids[i], Target(oid, xid)) && Beats(e, c, oid, xid)
    {
      KidIn(t.entries, t.kids, 0, i, c);
      assert CandidateIn(c, Records(t, ALL), oid, xid);
    }
  }

  lemma {:induction false} ServedNeedsExact(t: Tree)
    requires Full(t) && Strict(Records(t, ALL)) && ServedWithin(t)
    ensures ExactSeparators(t)
    decreases t
  {
    if t.TNode? {
      forall k | 0 < k < |t.kids|
        ensures Separated(t.entries, k, Records(t.kids[k - 1], ALL), Records(t.kids[k], ALL))
      {
        NeedsSeparated(t, k);
      }
      forall i | 0 <= i < |t.kids| ensures ExactSeparators(t.kids[i]) {
        KidStrict(t.entries, t.kids, 0, i);
        forall oid: nat, xid: nat | oid < U64 && xid < U64 && InSpan(Records(t.kids[i], ALL), oid, xid)
          ensures ServedAt(t.kids[i], oid, xid)
        {
          KidServed(t, i, oid, xid);
        }
        ServedNeedsExact(t.kids[i]);
      }
    }
  }

  // ---------- the theorem ----------

  lemma {:induction false} FloorIffServed(fetch: Fetch, t: Tree, oid: nat, xid: nat)
    requires Walkable(fetch, t, 0, {})
    ensures FloorOf(Records(t, ALL), oid, xid, Resolved(fetch, t.id, oid, xid)) <==> ServedAt(t, oid, xid)
  {
    var above := Target(oid, xid);
    LandIsLanding(fetch, above, t, MAX_DEPTH, {});
    forall e: Entry | e in Landing(t, above) ensures e in Records(t, ALL) {
      LandingInside(t, above, e);
    }
    FloorIffServes(Landing(t, above), Records(t, ALL), oid, xid);
  }

  /** Resolving any object at any transaction gives the floor of the full scan. */
  ghost predicate AlwaysFloor(fetch: Fetch, t: Tree) {
    forall oid: nat, xid: nat :: oid < U64 && xid < U64 ==>
      FloorOf(Records(t, ALL), oid, xid, Resolved(fetch, t.id, oid, xid))
  }

  /**
   On any walkable tree without empty subtrees, sorted with unique keys, every
   lookup returns the floor of the full scan if and only if the separators of
   every index node are exact.
   */
  lemma {:induction false} LookupRightIffExact(fetch: Fetch, t: Tree)
    requires Walkable(fetch, t, 0, {}) && Full(t) && Strict(Records(t, ALL))
    ensures AlwaysFloor(fetch, t) <==> ExactSeparators(t)
  {
    if ExactSeparators(t) {
      forall oid: nat, xid: nat | oid < U64 && xid < U64
        ensures FloorOf(Records(t, ALL), oid, xid, Resolved(fetch, t.id, oid, xid))
      {
        ExactServes(t, oid, xid);
        FloorIffServed(fetch, t, oid, xid);
      }
    }
    if AlwaysFloor(fetch, t) {
      forall oid: nat, xid: nat | oid < U64 && xid < U64 ensures ServedAt(t, oid, xid) {
        FloorIffServed(fetch, t, oid, xid);
      }
      ServedNeedsExact(t);
    }
  }

  /** With ascending separators only separator i matters for child i, and the first separator of a node never does. */
  lemma {:induction false} AscendingCase(es: seq<Entry>, i: nat, prev: seq<Entry>, kid: seq<Entry>)
    requires 0 < i < |es| && prev != [] && kid != []
    requires forall j, k :: 0 <= j <= k < |es| ==> KeyLeq(es[j].key, es[k].key)
    ensures Separated(es, i, prev, kid) <==>
              && KeyLeq(es[i].key, First(kid).key)
              && (SameKey(es[i].key, First(kid).key) || KeyOid(es[i].key) > KeyOid(Last(prev).key))
  {
    assert forall j :: 0 <= j <= i ==> KeyLeq(es[j].key, es[i].key);
  }
}
