/**
 The walk over the snapshot-metadata tree (core/src/snapshot.rs): the root is
 read by block number, its descendants by virtual oid, and one visited set holds
 both.
 */
module SnapTree {
  import opened Results
  import opened Bytes
  import opened BTree
  import Node = BTreeNode
  import opened Image
  import FsTree

  /** The root node at a physical block. */
  function ReadRoot(img: seq<Byte>, bs: nat, paddr: nat): Result<BTree.Node> {
    var buf :- ReadBlock(img, bs, paddr);
    var node :- Verified(buf, paddr);
    Ok(Node.ParseNode(node, Node.FsTree))
  }

  /** The walk from a root already read, with its block number in the visited set. */
  function WalkFrom(fetch: Fetch, root: nat, top: Result<BTree.Node>): Walk {
    match top
    case Err(e) => Walk(Err(e), {root}, [])
    case Ok(Leaf(es)) => Walk(Ok(()), {root}, es)
    case Ok(Index(es)) => VisitFrom(fetch, ALL, es, 0, 1, {root})
  }

  /** `for_each_snap_record`. */
  function WalkSnapTree(img: seq<Byte>, bs: nat, omapOid: nat, xid: nat, root: nat): Walk {
    match FsTree.OpenOmap(img, bs, omapOid)
    case Err(e) => Walk(Err(e), {}, [])
    case Ok(omapRoot) => WalkFrom(FsTree.Virtual(img, bs, None, omapRoot, xid), root, ReadRoot(img, bs, root))
  }

  method DescendChildren(walker: Walker, fetch: Fetch, es: seq<Entry>, root: nat) returns (r: Result<()>)
    requires walker.visited == {root} && walker.out == []
    modifies walker
    ensures var w := VisitFrom(fetch, ALL, es, 0, 1, {root});
            r == w.result && (r.Ok? ==> walker.out == w.out)
  {
    ghost var whole := VisitFrom(fetch, ALL, es, 0, 1, {root});
    for i := 0 to |es|
      invariant var rest := VisitFrom(fetch, ALL, es, i, 1, walker.visited);
                whole.result == rest.result && whole.out == walker.out + rest.out
    {
      ghost var before, w := walker.out, Visit(fetch, ALL, Child(es[i]), 1, walker.visited);
      r := walker.Descend(fetch, ALL, Child(es[i]), 1);
      ghost var rest := VisitFrom(fetch, ALL, es, i + 1, 1, walker.visited);
      Regroup(before, w.out, rest.out);
      if r.Err? {
        return r;
      }
    }
    assert walker.out + [] == walker.out;
    return Ok(());
  }

  method ForEachSnapRecord(img: seq<Byte>, bs: nat, omapOid: nat, xid: nat, root: nat) returns (r: Result<seq<Entry>>)
    ensures r == Collected(WalkSnapTree(img, bs, omapOid, xid, root))
  {
    var omapRoot := FsTree.OpenOmap(img, bs, omapOid);
    if omapRoot.Err? {
      return Err(omapRoot.error);
    }
    var walker := new Walker();
    walker.visited := {root};
    var top := ReadRoot(img, bs, root);
    if top.Err? {
      return Err(top.error);
    }
    if top.value.Leaf? {
      return Ok(top.value.entries);
    }
    var done := DescendChildren(walker, FsTree.Virtual(img, bs, None, omapRoot.value, xid), top.value.entries, root);
    return if done.Ok? then Ok(walker.out) else Err(done.error);
  }

  // ---------- when the shared visited set gets in the way ----------

  lemma {:induction false} Apart(a: set<nat>, b: set<nat>, v: set<nat>, r: nat)
    requires a <= b && b * v <= {r} && r !in a
    ensures a !! v
  {
    forall x | x in a ensures x !in v {
      assert x in v ==> x in b * v;
    }
  }

  /** A walk that meets an id already visited is refused, whatever else the tree holds. */
  lemma {:induction false} Blocked(fetch: Fetch, t: Tree, depth: nat, visited: set<nat>, r: nat)
    requires Unfolds(fetch, t) && Distinct(t) && depth + Levels(t) <= MAX_DEPTH
    requires r in visited && r in Ids(t, ALL) && Ids(t, ALL) * visited <= {r}
    ensures Visit(fetch, ALL, t.id, depth, visited).result == Err(CycleGuard(MAX_DEPTH))
    decreases t, 0
  {
    assert t.id in Ids(t, ALL);
    if t.id != r {
      assert t.id !in Ids(t, ALL) * visited;
      var visited' := visited + {t.id};
      assert IdsAll(t.entries, t.kids, 0, ALL) * visited' <= {r};
      BlockedAll(fetch, t.entries, t.kids, 0, depth + 1, visited', r);
    }
  }

  lemma {:induction false} BlockedAll(fetch: Fetch, es: seq<Entry>, kids: seq<Tree>, i: nat, depth: nat, visited: set<nat>, r: nat)
    requires UnfoldsAll(fetch, es, kids, i) && DistinctAll(es, kids, i) && depth + LevelsAll(kids) <= MAX_DEPTH
    requires r in visited && r in IdsAll(es, kids, i, ALL) && IdsAll(es, kids, i, ALL) * visited <= {r}
    ensures VisitFrom(fetch, ALL, es, i, depth, visited).result == Err(CycleGuard(MAX_DEPTH))
    decreases kids, 0
  {
    var k := kids[0];
    assert Ids(k, ALL) <= IdsAll(es, kids, i, ALL);
    if r in Ids(k, ALL) {
      Blocked(fetch, k, depth, visited, r);
    } else {
      Apart(Ids(k, ALL), IdsAll(es, kids, i, ALL), visited, r);
      WalkOfTree(fetch, ALL, k, depth, visited);
      var visited' := visited + Ids(k, ALL);
      assert IdsAll(es, kids[1..], i + 1, ALL) * visited' <= {r};
      BlockedAll(fetch, es, kids[1..], i + 1, depth, visited', r);
    }
  }

  /**
   A snapshot-metadata tree whose descendants form a readable tree in the oid
   namespace is walked in full, left to right, if and only if no descendant's
   oid happens to equal the root's block number; otherwise it is refused as a
   cycle although it has none.
   */
  lemma {:induction false} WalkedUnlessAliased(fetch: Fetch, root: nat, es: seq<Entry>, kids: seq<Tree>)
    requires UnfoldsAll(fetch, es, kids, 0) && DistinctAll(es, kids, 0) && 1 + LevelsAll(kids) <= MAX_DEPTH
    ensures var w := WalkFrom(fetch, root, Ok(Index(es)));
            if root in IdsAll(es, kids, 0, ALL) then w.result == Err(CycleGuard(MAX_DEPTH))
            else w.result.Ok? && w.out == RecordsAll(es, kids, 0, ALL)
  {
    if root in IdsAll(es, kids, 0, ALL) {
      BlockedAll(fetch, es, kids, 0, 1, {root}, root);
    } else {
      WalkOfKids(fetch, ALL, es, kids, 0, 1, {root});
    }
  }
}
