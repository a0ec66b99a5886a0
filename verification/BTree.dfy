/**
 B-tree walks over a graph of nodes (core/src/btree.rs).

 A walk never sees bytes: `Fetch` turns a node id (a block number for a
 physically stored tree, a virtual oid for the fs-tree) into a parsed node or an
 error. The byte layer is supplied by the callers.
 */
module BTree {
  import opened Results
  import opened Bytes

  /** Depth cap on a root-to-leaf descent. */
  const MAX_DEPTH: nat := 64

  datatype Entry = Entry(key: seq<Byte>, value: seq<Byte>)

  datatype Node = Leaf(entries: seq<Entry>) | Index(entries: seq<Entry>)

  type Fetch = nat -> Result<Node>

  /** Which children of an index node a walk descends into. */
  type Keep = (seq<Entry>, nat) -> bool

  const ALL: Keep := (es: seq<Entry>, i: nat) => true

  /** An index entry's value is an 8-byte child id. */
  function Child(e: Entry): nat {
    LeU64(e.value, 0)
  }

  // ---------- what a guarded walk computes ----------

  /** The visited set and the visited leaf entries when a walk stops, and how it stopped. */
  datatype Walk = Walk(result: Result<()>, visited: set<nat>, out: seq<Entry>)

  function Room(depth: nat): nat {
    if depth <= MAX_DEPTH then MAX_DEPTH - depth else 0
  }

  function Visit(fetch: Fetch, keep: Keep, id: nat, depth: nat, visited: set<nat>): Walk
    decreases Room(depth), 0, 0
  {
    if depth >= MAX_DEPTH || id in visited then
      Walk(Err(CycleGuard(MAX_DEPTH)), visited, [])
    else match fetch(id)
      case Err(e) => Walk(Err(e), visited + {id}, [])
      case Ok(Leaf(es)) => Walk(Ok(()), visited + {id}, es)
      case Ok(Index(es)) => VisitFrom(fetch, keep, es, 0, depth + 1, visited + {id})
  }

  /** The children of an index node from position i on. */
  function VisitFrom(fetch: Fetch, keep: Keep, es: seq<Entry>, i: nat, depth: nat, visited: set<nat>): Walk
    decreases Room(depth), 1, |es| - i
  {
    if i >= |es| then
      Walk(Ok(()), visited, [])
    else if !keep(es, i) then
      VisitFrom(fetch, keep, es, i + 1, depth, visited)
    else
      var w := Visit(fetch, keep, Child(es[i]), depth, visited);
      if w.result.Err? then w else
      var rest := VisitFrom(fetch, keep, es, i + 1, depth, w.visited);
      Walk(rest.result, rest.visited, w.out + rest.out)
  }

  lemma {:induction false} Extended(before: seq<Entry>, sofar: seq<Entry>, more: seq<Entry>, rest: seq<Entry>)
    requires before <= sofar
    ensures before <= sofar + more && (sofar + more)[|before|..] == sofar[|before|..] + more
    ensures (sofar + more)[|before|..] + rest == sofar[|before|..] + (more + rest)
  {
    assert (sofar + more)[|before|..] == sofar[|before|..] + more;
  }

  /** The state a recursive descent mutates: the visited set and what the caller's callback collected. */
  class Walker {
    var visited: set<nat>
    var out: seq<Entry>

    constructor ()
      ensures visited == {} && out == []
    {
      visited, out := {}, [];
    }

    method Descend(fetch: Fetch, keep: Keep, id: nat, depth: nat) returns (r: Result<()>)
      modifies this
      ensures var w := Visit(fetch, keep, id, depth, old(visited));
              r == w.result && visited == w.visited && out == old(out) + w.out
      decreases Room(depth)
    {
      if depth >= MAX_DEPTH {
        return Err(CycleGuard(MAX_DEPTH));
      }
      if id in visited {
        return Err(CycleGuard(MAX_DEPTH));
      }
      visited := visited + {id};
      var node := fetch(id);
      if node.Err? {
        return Err(node.error);
      }
      var es := node.value.entries;
      if node.value.Leaf? {
        out := out + es;
        return Ok(());
      }
      ghost var whole := VisitFrom(fetch, keep, es, 0, depth + 1, visited);
      ghost var before := out;
      var i := 0;
      while i < |es|
        invariant 0 <= i <= |es|
        invariant before <= out
        invariant var rest := VisitFrom(fetch, keep, es, i, depth + 1, visited);
                  whole == Walk(rest.result, rest.visited, out[|before|..] + rest.out)
      {
        if keep(es, i) {
          ghost var sofar, w := out, Visit(fetch, keep, Child(es[i]), depth + 1, visited);
          r := Descend(fetch, keep, Child(es[i]), depth + 1);
          Extended(before, sofar, w.out, VisitFrom(fetch, keep, es, i + 1, depth + 1, visited).out);
          if r.Err? {
            return r;
          }
        }
        i := i + 1;
      }
      return Ok(());
    }
  }

  /** What a caller gets out of a walk: everything visited, or the error that stopped it. */
  function Collected(w: Walk): Result<seq<Entry>> {
    match w.result
    case Ok(_) => Ok(w.out)
    case Err(e) => Err(e)
  }

  /** `for_each_leaf_entry`: a walk from a fresh visited set. */
  method ForEachLeafEntry(fetch: Fetch, keep: Keep, root: nat) returns (r: Result<seq<Entry>>)
    ensures r == Collected(Visit(fetch, keep, root, 0, {}))
  {
    var walker := new Walker();
    var done := walker.Descend(fetch, keep, root, 0);
    assert walker.out == Visit(fetch, keep, root, 0, {}).out;
    return if done.Ok? then Ok(walker.out) else Err(done.error);
  }

  // ---------- the guards accept exactly the trees ----------

  /** The node id that a path of child positions leads to from `id`. */
  function Reach(fetch: Fetch, id: nat, path: seq<nat>): Option<nat>
    decreases |path|
  {
    if path == [] then Some(id) else
    match fetch(id)
    case Ok(Index(es)) => if path[0] < |es| then Reach(fetch, Child(es[path[0]]), path[1..]) else None
    case _ => None
  }

  ghost predicate Reachable(fetch: Fetch, root: nat, x: nat) {
    exists p :: Reach(fetch, root, p) == Some(x)
  }

  /**
   The part of the graph reachable from `root` is a tree of at most 64 levels
   whose nodes can all be read: no two paths end at the same node.
   */
  ghost predicate ReachableIsTree(fetch: Fetch, root: nat) {
    && (forall p :: Reach(fetch, root, p).Some? ==>
          |p| < 64 && fetch(Reach(fetch, root, p).value).Ok?)
    && (forall p, q :: Reach(fetch, root, p).Some? && Reach(fetch, root, p) == Reach(fetch, root, q) ==> p == q)
  }

  /** Paths still ahead of a walk that has finished the children before position i; all of them when i < 0. */
  predicate Ahead(p: seq<nat>, i: int) {
    i < 0 || (p != [] && p[0] >= i)
  }

  /** ReachableIsTree for the paths ahead, seen from depth `depth`, and disjoint from what was visited. */
  ghost predicate ClearAhead(fetch: Fetch, id: nat, i: int, depth: nat, visited: set<nat>) {
    && (forall p :: Ahead(p, i) && Reach(fetch, id, p).Some? ==>
          var x := Reach(fetch, id, p).value;
          depth + |p| < MAX_DEPTH && fetch(x).Ok? && x !in visited)
    && (forall p, q ::
          Ahead(p, i) && Ahead(q, i) && Reach(fetch, id, p).Some? && Reach(fetch, id, p) == Reach(fetch, id, q) ==>
          p == q)
  }

  /** `after` is `before` plus everything the paths ahead reach. */
  ghost predicate Grown(fetch: Fetch, id: nat, i: int, before: set<nat>, after: set<nat>) {
    forall x :: x in after <==> x in before || exists p :: Ahead(p, i) && Reach(fetch, id, p) == Some(x)
  }

  lemma {:induction false} ReachStep(fetch: Fetch, id: nat, es: seq<Entry>, i: nat, q: seq<nat>)
    requires fetch(id) == Ok(Index(es)) && i < |es|
    ensures Reach(fetch, id, [i] + q) == Reach(fetch, Child(es[i]), q)
  {
    assert ([i] + q)[1..] == q;
  }

  lemma {:induction false} ClearChild(fetch: Fetch, id: nat, es: seq<Entry>, i: nat, depth: nat, visited: set<nat>)
    requires fetch(id) == Ok(Index(es)) && i < |es|
    requires ClearAhead(fetch, id, i, depth, visited)
    ensures ClearAhead(fetch, Child(es[i]), -1, depth + 1, visited)
  {
    var c := Child(es[i]);
    forall q ensures Reach(fetch, id, [i] + q) == Reach(fetch, c, q) && Ahead([i] + q, i) && |[i] + q| == |q| + 1 {
      ReachStep(fetch, id, es, i, q);
    }
    forall p, q | Reach(fetch, c, p).Some? && Reach(fetch, c, p) == Reach(fetch, c, q) ensures p == q {
      assert [i] + p == [i] + q;
      assert p == ([i] + p)[1..] && q == ([i] + q)[1..];
    }
    forall p | Reach(fetch, c, p).Some?
      ensures var x := Reach(fetch, c, p).value; depth + 1 + |p| < MAX_DEPTH && fetch(x).Ok? && x !in visited
    {
      assert Ahead([i] + p, i);
    }
  }

  /** What the rest of a walk needs, given that child i reached exactly the new part of `mid`. */
  lemma {:induction false} ClearRest(fetch: Fetch, id: nat, es: seq<Entry>, i: nat, depth: nat, visited: set<nat>, mid: set<nat>)
    requires fetch(id) == Ok(Index(es)) && i < |es|
    requires Grown(fetch, Child(es[i]), -1, visited, mid)
    requires ClearAhead(fetch, id, i, depth, visited)
    ensures ClearAhead(fetch, id, i + 1, depth, mid)
  {
    assert forall p :: Ahead(p, i + 1) ==> Ahead(p, i);
    forall p | Ahead(p, i + 1) && Reach(fetch, id, p).Some? ensures Reach(fetch, id, p).value !in mid {
      var x := Reach(fetch, id, p).value;
      if x in mid && x !in visited {
        var q :| Ahead(q, -1) && Reach(fetch, Child(es[i]), q) == Some(x);
        ReachStep(fetch, id, es, i, q);
        var r := [i] + q;
        assert r[0] == i;
        assert Ahead(r, i);
      }
    }
  }

  /** Child i's subtree and the children after it, clear one after the other, are clear together. */
  lemma {:induction false} ClearJoin(fetch: Fetch, id: nat, es: seq<Entry>, i: nat, depth: nat, visited: set<nat>, mid: set<nat>)
    requires fetch(id) == Ok(Index(es)) && i < |es|
    requires Grown(fetch, Child(es[i]), -1, visited, mid)
    requires ClearAhead(fetch, Child(es[i]), -1, depth + 1, visited) && ClearAhead(fetch, id, i + 1, depth, mid)
    ensures ClearAhead(fetch, id, i, depth, visited)
  {
    forall p | Ahead(p, i) && Reach(fetch, id, p).Some?
      ensures var x := Reach(fetch, id, p).value; depth + |p| < MAX_DEPTH && fetch(x).Ok? && x !in visited
    {
      assert if p[0] == i then Ahead(p[1..], -1) else Ahead(p, i + 1);
    }
    forall p, q | Ahead(p, i) && Ahead(q, i) && Reach(fetch, id, p).Some? && Reach(fetch, id, p) == Reach(fetch, id, q)
      ensures p == q
    {
      Same(fetch, id, es, i, depth, visited, mid, p, q);
    }
  }

  lemma {:induction false} Same(fetch: Fetch, id: nat, es: seq<Entry>, i: nat, depth: nat, visited: set<nat>, mid: set<nat>, p: seq<nat>, q: seq<nat>)
    requires fetch(id) == Ok(Index(es)) && i < |es|
    requires Grown(fetch, Child(es[i]), -1, visited, mid)
    requires ClearAhead(fetch, Child(es[i]), -1, depth + 1, visited) && ClearAhead(fetch, id, i + 1, depth, mid)
    requires Ahead(p, i) && Ahead(q, i) && Reach(fetch, id, p).Some? && Reach(fetch, id, p) == Reach(fetch, id, q)
    ensures p == q
  {
    var c := Child(es[i]);
    if p[0] == i && q[0] == i {
      assert p == [i] + p[1..] && q == [i] + q[1..];
      assert Ahead(p[1..], -1) && Ahead(q[1..], -1);
    } else if p[0] == i {
      assert Ahead(p[1..], -1) && Reach(fetch, c, p[1..]) == Reach(fetch, id, p);
      assert Ahead(q, i + 1);
    } else if q[0] == i {
      assert Ahead(q[1..], -1) && Reach(fetch, c, q[1..]) == Reach(fetch, id, q);
      assert Ahead(p, i + 1);
    } else {
      assert Ahead(p, i + 1) && Ahead(q, i + 1);
    }
  }

  lemma {:induction false} VisitExact(fetch: Fetch, id: nat, depth: nat, visited: set<nat>)
    ensures var w := Visit(fetch, ALL, id, depth, visited);
            && (w.result.Ok? <==> ClearAhead(fetch, id, -1, depth, visited))
            && (w.result.Ok? ==> Grown(fetch, id, -1, visited, w.visited))
    decreases Room(depth), 0, 0
  {
    assert Ahead([], -1) && Reach(fetch, id, []) == Some(id);
    if depth < MAX_DEPTH && id !in visited && fetch(id).Ok? {
      match fetch(id).value
      case Leaf(es) =>
        assert forall p :: p != [] ==> Reach(fetch, id, p) == None;
      case Index(es) =>
        VisitFromExact(fetch, id, es, 0, depth, visited + {id});
        RootSplit(fetch, id, depth, visited);
        var w := Visit(fetch, ALL, id, depth, visited);
        if w.result.Ok? {
          forall x ensures x in w.visited <==> x in visited || exists p :: Ahead(p, -1) && Reach(fetch, id, p) == Some(x) {
            if x in w.visited && x !in visited && x != id {
              var p :| Ahead(p, 0) && Reach(fetch, id, p) == Some(x);
              assert Ahead(p, -1);
            }
            if exists p :: Ahead(p, -1) && Reach(fetch, id, p) == Some(x) {
              var p :| Ahead(p, -1) && Reach(fetch, id, p) == Some(x);
              assert p == [] || Ahead(p, 0);
            }
          }
        }
    }
  }

  /** Separating the empty path from the paths through children. */
  lemma {:induction false} RootSplit(fetch: Fetch, id: nat, depth: nat, visited: set<nat>)
    requires depth < MAX_DEPTH && id !in visited && fetch(id).Ok?
    ensures ClearAhead(fetch, id, -1, depth, visited) <==> ClearAhead(fetch, id, 0, depth, visited + {id})
  {
    assert Reach(fetch, id, []) == Some(id);
    if ClearAhead(fetch, id, -1, depth, visited) {
      forall p | Ahead(p, 0) && Reach(fetch, id, p).Some? ensures Reach(fetch, id, p).value !in visited + {id} {
        assert Ahead(p, -1) && Ahead([], -1);
      }
      assert forall p :: Ahead(p, 0) ==> Ahead(p, -1);
    }
    if ClearAhead(fetch, id, 0, depth, visited + {id}) {
      assert forall p :: p == [] || Ahead(p, 0);
    }
  }

  lemma {:induction false} VisitFromExact(fetch: Fetch, id: nat, es: seq<Entry>, i: nat, depth: nat, visited: set<nat>)
    requires fetch(id) == Ok(Index(es)) && i <= |es|
    ensures var w := VisitFrom(fetch, ALL, es, i, depth + 1, visited);
            && (w.result.Ok? <==> ClearAhead(fetch, id, i, depth, visited))
            && (w.result.Ok? ==> Grown(fetch, id, i, visited, w.visited))
    decreases Room(depth + 1), 1, |es| - i
  {
    if i == |es| {
      assert forall p :: Ahead(p, i) ==> Reach(fetch, id, p) == None;
    } else {
      var c := Child(es[i]);
      VisitExact(fetch, c, depth + 1, visited);
      var w := Visit(fetch, ALL, c, depth + 1, visited);
      if w.result.Ok? {
        VisitFromExact(fetch, id, es, i + 1, depth, w.visited);
        if ClearAhead(fetch, id, i, depth, visited) {
          ClearRest(fetch, id, es, i, depth, visited, w.visited);
        }
        if ClearAhead(fetch, id, i + 1, depth, w.visited) {
          ClearJoin(fetch, id, es, i, depth, visited, w.visited);
        }
        GrownSplit(fetch, id, es, i, visited, w.visited);
      } else if ClearAhead(fetch, id, i, depth, visited) {
        ClearChild(fetch, id, es, i, depth, visited);
      }
    }
  }

  lemma {:induction false} GrownSplit(fetch: Fetch, id: nat, es: seq<Entry>, i: nat, visited: set<nat>, mid: set<nat>)
    requires fetch(id) == Ok(Index(es)) && i < |es|
    requires Grown(fetch, Child(es[i]), -1, visited, mid)
    ensures forall after :: Grown(fetch, id, i + 1, mid, after) ==> Grown(fetch, id, i, visited, after)
  {
    var c := Child(es[i]);
    forall after, x | Grown(fetch, id, i + 1, mid, after)
      ensures x in after <==> x in visited || exists p :: Ahead(p, i) && Reach(fetch, id, p) == Some(x)
    {
      if x in after && x !in visited {
        if x in mid {
          var q :| Ahead(q, -1) && Reach(fetch, c, q) == Some(x);
          ReachStep(fetch, id, es, i, q);
          assert Ahead([i] + q, i);
        } else {
          var p :| Ahead(p, i + 1) && Reach(fetch, id, p) == Some(x);
          assert Ahead(p, i);
        }
      }
      if exists p :: Ahead(p, i) && Reach(fetch, id, p) == Some(x) {
        var p :| Ahead(p, i) && Reach(fetch, id, p) == Some(x);
        if p[0] == i {
          assert p == [i] + p[1..] && Ahead(p[1..], -1);
          assert Reach(fetch, c, p[1..]) == Some(x);
        } else {
          assert Ahead(p, i + 1);
        }
      }
    }
  }

  /**
   The guarded full walk terminates on every graph, and it succeeds if and only
   if what the root reaches is a readable tree of at most 64 levels. On success
   it has entered exactly the reachable nodes.
   */
  lemma {:induction false} GuardIsExact(fetch: Fetch, root: nat)
    ensures var w := Visit(fetch, ALL, root, 0, {});
            && (w.result.Ok? <==> ReachableIsTree(fetch, root))
            && (w.result.Ok? ==> forall x :: x in w.visited <==> Reachable(fetch, root, x))
  {
    VisitExact(fetch, root, 0, {});
    var w := Visit(fetch, ALL, root, 0, {});
    assert ClearAhead(fetch, root, -1, 0, {}) <==> ReachableIsTree(fetch, root) by {
      assert forall p :: Ahead(p, -1);
    }
    if w.result.Ok? {
      forall x ensures x in w.visited <==> Reachable(fetch, root, x) {
        ReachableAhead(fetch, root, x);
      }
    }
  }

  lemma {:induction false} ReachableAhead(fetch: Fetch, root: nat, x: nat)
    ensures Reachable(fetch, root, x) <==> exists p :: Ahead(p, -1) && Reach(fetch, root, p) == Some(x)
  {
    if Reachable(fetch, root, x) {
      var p :| Reach(fetch, root, p) == Some(x);
      assert Ahead(p, -1);
    }
  }

  // ---------- the unfolded tree, and what walks over it yield ----------

  datatype Tree = TLeaf(id: nat, entries: seq<Entry>) | TNode(id: nat, entries: seq<Entry>, kids: seq<Tree>)

  /** t is the unfolding of the graph below t.id. */
  ghost predicate Unfolds(fetch: Fetch, t: Tree)
    decreases t, 0
  {
    match t
    case TLeaf(id, es) => fetch(id) == Ok(Leaf(es))
    case TNode(id, es, kids) => fetch(id) == Ok(Index(es)) && UnfoldsAll(fetch, es, kids, 0)
  }

  /** kids are the unfoldings of the children es[i..]. */
  ghost predicate UnfoldsAll(fetch: Fetch, es: seq<Entry>, kids: seq<Tree>, i: nat)
    decreases kids, 0
  {
    if kids == [] then i == |es| else
    && i < |es|
    && kids[0].id == Child(es[i])
    && Unfolds(fetch, kids[0])
    && UnfoldsAll(fetch, es, kids[1..], i + 1)
  }

  function Levels(t: Tree): (n: nat)
    ensures n >= 1
    decreases t, 0
  {
    match t
    case TLeaf(_, _) => 1
    case TNode(_, _, kids) => 1 + LevelsAll(kids)
  }

  function LevelsAll(kids: seq<Tree>): nat
    decreases kids, 0
  {
    if kids == [] then 0 else
    var m, n := Levels(kids[0]), LevelsAll(kids[1..]);
    if m >= n then m else n
  }

  /** The ids of the nodes a walk with `keep` enters. */
  function Ids(t: Tree, keep: Keep): set<nat>
    decreases t, 0
  {
    match t
    case TLeaf(id, _) => {id}
    case TNode(id, es, kids) => {id} + IdsAll(es, kids, 0, keep)
  }

  function IdsAll(es: seq<Entry>, kids: seq<Tree>, i: nat, keep: Keep): set<nat>
    decreases kids, 0
  {
    if kids == [] then {} else
    (if keep(es, i) then Ids(kids[0], keep) else {}) + IdsAll(es, kids[1..], i + 1, keep)
  }

  /** The leaf entries a walk with `keep` visits, left to right. */
  function Records(t: Tree, keep: Keep): seq<Entry>
    decreases t, 0
  {
    match t
    case TLeaf(_, es) => es
    case TNode(_, es, kids) => RecordsAll(es, kids, 0, keep)
  }

  function RecordsAll(es: seq<Entry>, kids: seq<Tree>, i: nat, keep: Keep): seq<Entry>
    decreases kids, 0
  {
    if kids == [] then [] else
    (if keep(es, i) then Records(kids[0], keep) else []) + RecordsAll(es, kids[1..], i + 1, keep)
  }

  /** No node id occurs twice in t. */
  ghost predicate Distinct(t: Tree)
    decreases t, 0
  {
    match t
    case TLeaf(_, _) => true
    case TNode(id, es, kids) => id !in IdsAll(es, kids, 0, ALL) && DistinctAll(es, kids, 0)
  }

  ghost predicate DistinctAll(es: seq<Entry>, kids: seq<Tree>, i: nat)
    decreases kids, 0
  {
    if kids == [] then true else
    && Distinct(kids[0])
    && Ids(kids[0], ALL) !! IdsAll(es, kids[1..], i + 1, ALL)
    && DistinctAll(es, kids[1..], i + 1)
  }

  /** t is a tree the guards accept at this depth: every walk over it succeeds. */
  ghost predicate Walkable(fetch: Fetch, t: Tree, depth: nat, visited: set<nat>) {
    Unfolds(fetch, t) && Distinct(t) && depth + Levels(t) <= MAX_DEPTH && Ids(t, ALL) !! visited
  }

  lemma {:induction false} IdsOfKept(t: Tree, keep: Keep)
    ensures Ids(t, keep) <= Ids(t, ALL)
    decreases t, 0
  {
    if t.TNode? {
      IdsOfKeptAll(t.entries, t.kids, 0, keep);
    }
  }

  lemma {:induction false} IdsOfKeptAll(es: seq<Entry>, kids: seq<Tree>, i: nat, keep: Keep)
    ensures IdsAll(es, kids, i, keep) <= IdsAll(es, kids, i, ALL)
    decreases kids, 0
  {
    if kids != [] {
      IdsOfKept(kids[0], keep);
      IdsOfKeptAll(es, kids[1..], i + 1, keep);
    }
  }

  /** Any walk over a walkable tree, pruned or not, succeeds and yields exactly the kept records in order. */
  lemma {:induction false} WalkOfTree(fetch: Fetch, keep: Keep, t: Tree, depth: nat, visited: set<nat>)
    requires Walkable(fetch, t, depth, visited)
    ensures Visit(fetch, keep, t.id, depth, visited) == Walk(Ok(()), visited + Ids(t, keep), Records(t, keep))
    decreases t, 0
  {
    match t
    case TLeaf(id, es) =>
      assert id in Ids(t, ALL);
    case TNode(id, es, kids) =>
      assert id in Ids(t, ALL);
      WalkOfKids(fetch, keep, es, kids, 0, depth + 1, visited + {id});
      assert visited + {id} + IdsAll(es, kids, 0, keep) == visited + Ids(t, keep);
  }

  lemma {:induction false} WalkOfKids(fetch: Fetch, keep: Keep, es: seq<Entry>, kids: seq<Tree>, i: nat, depth: nat, visited: set<nat>)
    requires UnfoldsAll(fetch, es, kids, i) && DistinctAll(es, kids, i)
    requires depth + LevelsAll(kids) <= MAX_DEPTH && IdsAll(es, kids, i, ALL) !! visited
    ensures VisitFrom(fetch, keep, es, i, depth, visited) ==
              Walk(Ok(()), visited + IdsAll(es, kids, i, keep), RecordsAll(es, kids, i, keep))
    decreases kids, 0
  {
    if kids != [] {
      var k := kids[0];
      if keep(es, i) {
        WalkOfTree(fetch, keep, k, depth, visited);
        IdsOfKept(k, keep);
        WalkOfKids(fetch, keep, es, kids[1..], i + 1, depth, visited + Ids(k, keep));
        assert visited + Ids(k, keep) + IdsAll(es, kids[1..], i + 1, keep) == visited + IdsAll(es, kids, i, keep);
      } else {
        WalkOfKids(fetch, keep, es, kids[1..], i + 1, depth, visited);
      }
    }
  }

  /** Conversely, whenever the full walk succeeds there is such a tree, and it was walked left to right, once. */
  lemma {:induction false} TreeOfWalk(fetch: Fetch, id: nat, depth: nat, visited: set<nat>) returns (t: Tree)
    requires Visit(fetch, ALL, id, depth, visited).result.Ok?
    ensures t.id == id && Walkable(fetch, t, depth, visited)
    ensures Visit(fetch, ALL, id, depth, visited) == Walk(Ok(()), visited + Ids(t, ALL), Records(t, ALL))
    decreases Room(depth), 0, 0
  {
    match fetch(id).value
    case Leaf(es) =>
      t := TLeaf(id, es);
    case Index(es) =>
      var kids := KidsOfWalk(fetch, es, 0, depth + 1, visited + {id});
      t := TNode(id, es, kids);
      assert visited + {id} + IdsAll(es, kids, 0, ALL) == visited + Ids(t, ALL);
  }

  lemma {:induction false} KidsOfWalk(fetch: Fetch, es: seq<Entry>, i: nat, depth: nat, visited: set<nat>) returns (kids: seq<Tree>)
    requires i <= |es| && VisitFrom(fetch, ALL, es, i, depth, visited).result.Ok? && depth <= MAX_DEPTH
    ensures UnfoldsAll(fetch, es, kids, i) && DistinctAll(es, kids, i)
    ensures depth + LevelsAll(kids) <= MAX_DEPTH && IdsAll(es, kids, i, ALL) !! visited
    ensures VisitFrom(fetch, ALL, es, i, depth, visited) ==
              Walk(Ok(()), visited + IdsAll(es, kids, i, ALL), RecordsAll(es, kids, i, ALL))
    decreases Room(depth), 1, |es| - i
  {
    if i == |es| {
      kids := [];
    } else {
      var k := TreeOfWalk(fetch, Child(es[i]), depth, visited);
      var rest := KidsOfWalk(fetch, es, i + 1, depth, visited + Ids(k, ALL));
      kids := [k] + rest;
      assert kids[1..] == rest;
      assert visited + Ids(k, ALL) + IdsAll(es, rest, i + 1, ALL) == visited + IdsAll(es, kids, i, ALL);
    }
  }

  // ---------- pruning ----------

  function Filter(rs: seq<Entry>, want: Entry -> bool): seq<Entry> {
    if rs == [] then [] else (if want(rs[0]) then [rs[0]] else []) + Filter(rs[1..], want)
  }

  lemma {:induction false} FilterConcat(a: seq<Entry>, b: seq<Entry>, want: Entry -> bool)
    ensures Filter(a + b, want) == Filter(a, want) + Filter(b, want)
  {
    if a == [] {
      assert a + b == b;
    } else {
      FilterConcat(a[1..], b, want);
      var h, x, y := if want(a[0]) then [a[0]] else [], Filter(a[1..], want), Filter(b, want);
      assert (a + b)[1..] == a[1..] + b && (a + b)[0] == a[0];
      assert h + (x + y) == (h + x) + y;
    }
  }

  /** No child that `keep` skips holds a wanted record, anywhere in t. */
  ghost predicate SkipsOnlyUnwanted(t: Tree, keep: Keep, want: Entry -> bool)
    decreases t, 0
  {
    t.TNode? ==> SkipsOnlyUnwantedAll(t.entries, t.kids, 0, keep, want)
  }

  ghost predicate SkipsOnlyUnwantedAll(es: seq<Entry>, kids: seq<Tree>, i: nat, keep: Keep, want: Entry -> bool)
    decreases kids, 0
  {
    kids != [] ==>
      && (keep(es, i) || Filter(Records(kids[0], ALL), want) == [])
      && SkipsOnlyUnwanted(kids[0], keep, want)
      && SkipsOnlyUnwantedAll(es, kids[1..], i + 1, keep, want)
  }

  /** Pruning that skips only unwanted children loses no wanted record and keeps their order. */
  lemma {:induction false} PruneKeepsWanted(t: Tree, keep: Keep, want: Entry -> bool)
    requires SkipsOnlyUnwanted(t, keep, want)
    ensures Filter(Records(t, keep), want) == Filter(Records(t, ALL), want)
    decreases t, 0
  {
    if t.TNode? {
      PruneKeepsWantedAll(t.entries, t.kids, 0, keep, want);
    }
  }

  lemma {:induction false} PruneKeepsWantedAll(es: seq<Entry>, kids: seq<Tree>, i: nat, keep: Keep, want: Entry -> bool)
    requires SkipsOnlyUnwantedAll(es, kids, i, keep, want)
    ensures Filter(RecordsAll(es, kids, i, keep), want) == Filter(RecordsAll(es, kids, i, ALL), want)
    decreases kids, 0
  {
    if kids != [] {
      PruneKeepsWanted(kids[0], keep, want);
      PruneKeepsWantedAll(es, kids[1..], i + 1, keep, want);
      var kept := if keep(es, i) then Records(kids[0], keep) else [];
      FilterConcat(kept, RecordsAll(es, kids[1..], i + 1, keep), want);
      FilterConcat(Records(kids[0], ALL), RecordsAll(es, kids[1..], i + 1, ALL), want);
    }
  }

  // ---------- a walk depends only on the nodes it enters ----------

  lemma {:induction false} VisitedGrows(fetch: Fetch, keep: Keep, id: nat, depth: nat, visited: set<nat>)
    ensures visited <= Visit(fetch, keep, id, depth, visited).visited
    decreases Room(depth), 0, 0
  {
    if depth < MAX_DEPTH && id !in visited && fetch(id).Ok? && fetch(id).value.Index? {
      VisitedGrowsFrom(fetch, keep, fetch(id).value.entries, 0, depth + 1, visited + {id});
    }
  }

  lemma {:induction false} VisitedGrowsFrom(fetch: Fetch, keep: Keep, es: seq<Entry>, i: nat, depth: nat, visited: set<nat>)
    ensures visited <= VisitFrom(fetch, keep, es, i, depth, visited).visited
    decreases Room(depth), 1, |es| - i
  {
    if i < |es| {
      VisitedGrows(fetch, keep, Child(es[i]), depth, visited);
      VisitedGrowsFrom(fetch, keep, es, i + 1, depth, visited);
      VisitedGrowsFrom(fetch, keep, es, i + 1, depth, Visit(fetch, keep, Child(es[i]), depth, visited).visited);
    }
  }

  /** Two graphs that agree on every node the first walk enters give the same walk, success or failure. */
  lemma {:induction false} SameWalk(f: Fetch, g: Fetch, keep: Keep, id: nat, depth: nat, visited: set<nat>)
    requires forall x :: x in Visit(f, keep, id, depth, visited).visited && x !in visited ==> f(x) == g(x)
    ensures Visit(g, keep, id, depth, visited) == Visit(f, keep, id, depth, visited)
    decreases Room(depth), 0, 0
  {
    if depth < MAX_DEPTH && id !in visited {
      var w := Visit(f, keep, id, depth, visited);
      if f(id).Ok? && f(id).value.Index? {
        var es := f(id).value.entries;
        VisitedGrowsFrom(f, keep, es, 0, depth + 1, visited + {id});
        assert f(id) == g(id);
        SameWalkFrom(f, g, keep, es, 0, depth + 1, visited + {id});
      } else {
        assert id in w.visited;
      }
    }
  }

  lemma {:induction false} SameWalkFrom(f: Fetch, g: Fetch, keep: Keep, es: seq<Entry>, i: nat, depth: nat, visited: set<nat>)
    requires forall x :: x in VisitFrom(f, keep, es, i, depth, visited).visited && x !in visited ==> f(x) == g(x)
    ensures VisitFrom(g, keep, es, i, depth, visited) == VisitFrom(f, keep, es, i, depth, visited)
    decreases Room(depth), 1, |es| - i
  {
    if i < |es| {
      if keep(es, i) {
        var w := Visit(f, keep, Child(es[i]), depth, visited);
        VisitedGrows(f, keep, Child(es[i]), depth, visited);
        VisitedGrowsFrom(f, keep, es, i + 1, depth, w.visited);
        SameWalk(f, g, keep, Child(es[i]), depth, visited);
        if w.result.Ok? {
          SameWalkFrom(f, g, keep, es, i + 1, depth, w.visited);
        }
      } else {
        SameWalkFrom(f, g, keep, es, i + 1, depth, visited);
      }
    }
  }

  // ---------- the one-path point lookup ----------

  /** Whether a key orders after the search target (`cmp(key) == Greater`). */
  type Above = seq<Byte> -> bool

  /** Position of the last entry before the first one above the target, or 0 when even the first is above. */
  function Pick(es: seq<Entry>, above: Above, i: nat): (k: nat)
    requires i <= |es|
    decreases |es| - i
  {
    if i == |es| || above(es[i].key) then (if i == 0 then 0 else i - 1) else Pick(es, above, i + 1)
  }

  /** The entries of the leaf a point lookup lands on. */
  function Land(fetch: Fetch, above: Above, id: nat, steps: nat, visited: set<nat>): Result<seq<Entry>>
    decreases steps
  {
    if steps == 0 || id in visited then Err(CycleGuard(MAX_DEPTH)) else
    match fetch(id)
    case Err(e) => Err(e)
    case Ok(Leaf(es)) => Ok(es)
    case Ok(Index(es)) =>
      if es == [] then Ok([])
      else
        PickInRange(es, above, 0);
        Land(fetch, above, Child(es[Pick(es, above, 0)]), steps - 1, visited + {id})
  }

  lemma {:induction false} PickInRange(es: seq<Entry>, above: Above, i: nat)
    requires i <= |es| && es != []
    ensures var k := Pick(es, above, i);
            && k < |es|
            && (|| (i == 0 && k == 0 && above(es[0].key))
                || (&& i <= k + 1
                    && (forall j :: i <= j <= k ==> !above(es[j].key))
                    && (k + 1 < |es| ==> above(es[k + 1].key))))
    decreases |es| - i
  {
    if i < |es| && !above(es[i].key) {
      PickInRange(es, above, i + 1);
    }
  }

  /** Descend one root-to-leaf path; `found` is what the visitor sees. */
  method FindLeaf(fetch: Fetch, root: nat, above: Above) returns (found: Result<seq<Entry>>)
    ensures found == Land(fetch, above, root, MAX_DEPTH, {})
  {
    var visited: set<nat> := {};
    var paddr := root;
    for step := 0 to MAX_DEPTH
      invariant Land(fetch, above, root, MAX_DEPTH, {}) == Land(fetch, above, paddr, MAX_DEPTH - step, visited)
    {
      if paddr in visited {
        return Err(CycleGuard(MAX_DEPTH));
      }
      visited := visited + {paddr};
      var node := fetch(paddr);
      if node.Err? {
        return Err(node.error);
      }
      var es := node.value.entries;
      if node.value.Leaf? {
        return Ok(es);
      }
      if es == [] {
        return Ok([]);
      }
      var child := Child(es[0]);
      var i := 0;
      while i < |es| && !above(es[i].key)
        invariant 0 <= i <= |es|
        invariant Pick(es, above, 0) == Pick(es, above, i)
        invariant child == Child(es[if i == 0 then 0 else i - 1])
      {
        child := Child(es[i]);
        i := i + 1;
      }
      paddr := child;
    }
    return Err(CycleGuard(MAX_DEPTH));
  }

  /** Every separator sits on the same side of the target as the first record of its child's subtree. */
  ghost predicate SeparatorsAgree(t: Tree, above: Above)
    decreases t, 0
  {
    t.TNode? ==> SeparatorsAgreeAll(t.entries, t.kids, 0, above)
  }

  ghost predicate SeparatorsAgreeAll(es: seq<Entry>, kids: seq<Tree>, i: nat, above: Above)
    decreases kids, 0
  {
    kids != [] ==>
      && i < |es|
      && Records(kids[0], ALL) != []
      && (above(es[i].key) <==> above(Records(kids[0], ALL)[0].key))
      && SeparatorsAgree(kids[0], above)
      && SeparatorsAgreeAll(es, kids[1..], i + 1, above)
  }

  /** Along the scan, once a record is above the target all later ones are. */
  ghost predicate Monotone(rs: seq<Entry>, above: Above) {
    forall i, j :: 0 <= i <= j < |rs| && above(rs[i].key) ==> above(rs[j].key)
  }

  /** The facts about one child that any lookup uses. */
  lemma {:induction false} KidFacts(fetch: Fetch, es: seq<Entry>, kids: seq<Tree>, i: nat, k: nat)
    requires UnfoldsAll(fetch, es, kids, i) && DistinctAll(es, kids, i) && k < |kids|
    ensures |kids| == |es| - i && kids[k].id == Child(es[i + k])
    ensures Unfolds(fetch, kids[k]) && Distinct(kids[k])
    ensures Levels(kids[k]) <= LevelsAll(kids) && Ids(kids[k], ALL) <= IdsAll(es, kids, i, ALL)
    decreases kids, 0
  {
    KidCount(fetch, es, kids, i);
    if k > 0 {
      KidFacts(fetch, es, kids[1..], i + 1, k - 1);
    }
  }

  lemma {:induction false} KidSeparator(es: seq<Entry>, kids: seq<Tree>, i: nat, k: nat, above: Above)
    requires SeparatorsAgreeAll(es, kids, i, above) && k < |kids|
    ensures i + k < |es| && SeparatorsAgree(kids[k], above)
    ensures Records(kids[k], ALL) != [] && (above(es[i + k].key) <==> above(Records(kids[k], ALL)[0].key))
    decreases kids, 0
  {
    if k > 0 {
      KidSeparator(es, kids[1..], i + 1, k - 1, above);
    }
  }

  lemma {:induction false} KidAt(fetch: Fetch, es: seq<Entry>, kids: seq<Tree>, i: nat, k: nat, above: Above)
    requires UnfoldsAll(fetch, es, kids, i) && DistinctAll(es, kids, i) && SeparatorsAgreeAll(es, kids, i, above)
    requires k < |kids|
    ensures |kids| == |es| - i && kids[k].id == Child(es[i + k])
    ensures Unfolds(fetch, kids[k]) && Distinct(kids[k]) && SeparatorsAgree(kids[k], above)
    ensures Levels(kids[k]) <= LevelsAll(kids) && Ids(kids[k], ALL) <= IdsAll(es, kids, i, ALL)
    ensures Records(kids[k], ALL) != [] && (above(es[i + k].key) <==> above(Records(kids[k], ALL)[0].key))
  {
    KidFacts(fetch, es, kids, i, k);
    KidSeparator(es, kids, i, k, above);
  }

  lemma {:induction false} KidCount(fetch: Fetch, es: seq<Entry>, kids: seq<Tree>, i: nat)
    requires UnfoldsAll(fetch, es, kids, i)
    ensures |kids| == |es| - i
    decreases kids, 0
  {
    if kids != [] {
      KidCount(fetch, es, kids[1..], i + 1);
    }
  }

  /** A full scan is the scan of the first k children, then child k, then the rest. */
  lemma {:induction false} ScanSplit(es: seq<Entry>, kids: seq<Tree>, i: nat, k: nat)
    requires k <= |kids|
    ensures RecordsAll(es, kids, i, ALL) == RecordsAll(es, kids[..k], i, ALL) + RecordsAll(es, kids[k..], i + k, ALL)
    decreases kids, 0
  {
    if k == 0 {
      assert kids[..k] == [] && kids[k..] == kids;
    } else {
      ScanSplit(es, kids[1..], i + 1, k - 1);
      assert kids[..k][1..] == kids[1..][..k - 1];
      assert kids[1..][k - 1..] == kids[k..];
    }
  }

  /**
   [a..b) is where a lookup may land: everything after it is above the target
   and, unless it starts the scan, its first record is not.
   */
  ghost predicate Covers(scan: seq<Entry>, a: nat, b: nat, above: Above) {
    && a <= b <= |scan|
    && (forall j :: b <= j < |scan| ==> above(scan[j].key))
    && (a > 0 ==> a < b && !above(scan[a].key))
  }

  /** A landing place within the chosen child's records, the slice [n..m) of the scan, is one within the whole scan. */
  lemma {:induction false} CoversWhole(scan: seq<Entry>, n: nat, m: nat, a: nat, b: nat, above: Above)
    requires n < m <= |scan| && Covers(scan[n..m], a, b, above) && Monotone(scan, above)
    requires n > 0 ==> !above(scan[n].key)
    requires m < |scan| ==> above(scan[m].key) || above(scan[n].key)
    ensures Covers(scan, n + a, n + b, above)
    ensures scan[n + a..n + b] == scan[n..m][a..b]
  {
    forall j | n + b <= j < |scan| ensures above(scan[j].key) {
      if j < m {
        assert scan[n..m][j - n] == scan[j];
      } else {
        var i := if above(scan[m].key) then m else n;
        assert i <= j && above(scan[i].key);
      }
    }
    if a < m - n {
      assert scan[n..m][a] == scan[n + a];
    }
    assert b == 0 ==> a == 0;
    SliceOfSlice(scan, n, m, a, b);
  }

  lemma {:induction false} SubMonotone(scan: seq<Entry>, n: nat, m: nat, above: Above)
    requires n <= m <= |scan| && Monotone(scan, above)
    ensures Monotone(scan[n..m], above)
  {
  }

  lemma {:induction false} SplitAtKid(fetch: Fetch, es: seq<Entry>, kids: seq<Tree>, k: nat, above: Above)
    requires UnfoldsAll(fetch, es, kids, 0) && DistinctAll(es, kids, 0) && SeparatorsAgreeAll(es, kids, 0, above)
    requires |kids| == |es| && k < |kids|
    ensures var post := RecordsAll(es, kids[k + 1..], k + 1, ALL);
            && RecordsAll(es, kids, 0, ALL) == RecordsAll(es, kids[..k], 0, ALL) + Records(kids[k], ALL) + post
            && (k == 0 ==> RecordsAll(es, kids[..k], 0, ALL) == [])
            && (k + 1 == |es| ==> post == [])
            && (k + 1 < |es| ==> post != [] && (above(post[0].key) <==> above(es[k + 1].key)))
  {
    ScanSplit(es, kids, 0, k);
    assert kids[k..][1..] == kids[k + 1..];
    if k + 1 < |es| {
      KidAt(fetch, es, kids, 0, k + 1, above);
    }
  }

  /** A readable tree without repeated ids whose scan order and separators fit the target. */
  ghost predicate Searchable(fetch: Fetch, above: Above, t: Tree) {
    Unfolds(fetch, t) && Distinct(t) && SeparatorsAgree(t, above) && Monotone(Records(t, ALL), above)
  }

  /** The child a lookup descends into, and the slice [n..m) of the scan that is its subtree. */
  lemma {:induction false} ChosenKid(fetch: Fetch, above: Above, t: Tree) returns (k: nat, n: nat, m: nat)
    requires t.TNode? && t.entries != [] && Searchable(fetch, above, t)
    ensures |t.kids| == |t.entries| && k < |t.kids| && k == Pick(t.entries, above, 0)
    ensures var kid := t.kids[k];
            && kid.id == Child(t.entries[k]) && Searchable(fetch, above, kid)
            && Levels(kid) < Levels(t) && Ids(kid, ALL) <= Ids(t, ALL) - {t.id}
    ensures var scan := Records(t, ALL);
            && n < m <= |scan| && scan[n..m] == Records(t.kids[k], ALL)
            && (n > 0 ==> !above(scan[n].key))
            && (m < |scan| ==> above(scan[m].key) || above(scan[n].key))
  {
    var es, kids := t.entries, t.kids;
    KidCount(fetch, es, kids, 0);
    PickInRange(es, above, 0);
    k := Pick(es, above, 0);
    KidAt(fetch, es, kids, 0, k, above);
    n, m := KidSlice(fetch, above, t, k);
    SubMonotone(Records(t, ALL), n, m, above);
  }

  lemma {:induction false} KidSlice(fetch: Fetch, above: Above, t: Tree, k: nat) returns (n: nat, m: nat)
    requires t.TNode? && UnfoldsAll(fetch, t.entries, t.kids, 0) && DistinctAll(t.entries, t.kids, 0)
    requires SeparatorsAgreeAll(t.entries, t.kids, 0, above)
    requires |t.kids| == |t.entries| && k < |t.kids| && Records(t.kids[k], ALL) != []
    ensures var scan := Records(t, ALL);
            && n < m <= |scan| && scan[n..m] == Records(t.kids[k], ALL) && scan[n] == Records(t.kids[k], ALL)[0]
            && (k == 0 ==> n == 0)
            && (m < |scan| ==> k + 1 < |t.entries| && (above(scan[m].key) <==> above(t.entries[k + 1].key)))
  {
    var es, kids := t.entries, t.kids;
    SplitAtKid(fetch, es, kids, k, above);
    var pre, mid := RecordsAll(es, kids[..k], 0, ALL), Records(kids[k], ALL);
    n, m := |pre|, |pre + mid|;
    SlicesOf(pre, mid, RecordsAll(es, kids[k + 1..], k + 1, ALL));
  }

  lemma {:induction false} SlicesOf(pre: seq<Entry>, mid: seq<Entry>, post: seq<Entry>)
    requires mid != []
    ensures var scan := pre + mid + post;
            && scan[|pre|..|pre + mid|] == mid && scan[|pre|] == mid[0]
            && (post != [] ==> scan[|pre + mid|] == post[0])
  {
  }

  lemma {:induction false} LandStep(fetch: Fetch, above: Above, id: nat, es: seq<Entry>, k: nat, steps: nat, visited: set<nat>)
    requires fetch(id) == Ok(Index(es)) && es != [] && k < |es| && k == Pick(es, above, 0)
    requires steps > 0 && id !in visited
    ensures Land(fetch, above, id, steps, visited) == Land(fetch, above, Child(es[k]), steps - 1, visited + {id})
  {
  }

  lemma {:induction false} LandHere(fetch: Fetch, above: Above, t: Tree, steps: nat, visited: set<nat>)
    requires Unfolds(fetch, t) && (t.TLeaf? || t.entries == []) && steps > 0 && t.id !in visited
    ensures Land(fetch, above, t.id, steps, visited) == Ok(Records(t, ALL)[0..|Records(t, ALL)|])
  {
    if t.TNode? {
      KidCount(fetch, t.entries, t.kids, 0);
    }
    assert Records(t, ALL)[0..|Records(t, ALL)|] == Records(t, ALL);
  }

  lemma {:induction false} StillClear(a: set<nat>, b: set<nat>, visited: set<nat>, id: nat)
    requires a <= b - {id} && b !! visited
    ensures a !! visited + {id}
  {
  }

  /** Landing on [a..b) of child k's records is landing on [n + a..n + b) of the scan. */
  lemma {:induction false} LandThrough(fetch: Fetch, above: Above, t: Tree, k: nat, steps: nat, visited: set<nat>,
                                       scan: seq<Entry>, n: nat, m: nat, a: nat, b: nat)
    requires t.TNode? && fetch(t.id) == Ok(Index(t.entries)) && k < |t.entries| && k == Pick(t.entries, above, 0)
    requires steps > 0 && t.id !in visited
    requires n < m <= |scan| && Monotone(scan, above) && Covers(scan[n..m], a, b, above)
    requires (n > 0 ==> !above(scan[n].key)) && (m < |scan| ==> above(scan[m].key) || above(scan[n].key))
    requires Land(fetch, above, Child(t.entries[k]), steps - 1, visited + {t.id}) == Ok(scan[n..m][a..b])
    ensures Covers(scan, n + a, n + b, above)
    ensures Land(fetch, above, t.id, steps, visited) == Ok(scan[n + a..n + b])
  {
    LandStep(fetch, above, t.id, t.entries, k, steps, visited);
    CoversWhole(scan, n, m, a, b, above);
  }

  /**
   A point lookup on a walkable tree lands on a contiguous part [a..b) of the
   full scan that holds the last record at or below the target whenever there
   is one.
   */
  lemma {:induction false} LandOnTree(fetch: Fetch, above: Above, t: Tree, steps: nat, visited: set<nat>) returns (a: nat, b: nat)
    requires Searchable(fetch, above, t) && Levels(t) <= steps && Ids(t, ALL) !! visited
    ensures Covers(Records(t, ALL), a, b, above)
    ensures Land(fetch, above, t.id, steps, visited) == Ok(Records(t, ALL)[a..b])
    decreases t
  {
    assert t.id in Ids(t, ALL);
    var scan := Records(t, ALL);
    if t.TLeaf? || t.entries == [] {
      a, b := 0, |scan|;
      LandHere(fetch, above, t, steps, visited);
    } else {
      var k, n, m := ChosenKid(fetch, above, t);
      var kid, seen := t.kids[k], visited + {t.id};
      StillClear(Ids(kid, ALL), Ids(t, ALL), visited, t.id);
      a, b := LandOnTree(fetch, above, kid, steps - 1, seen);
      LandThrough(fetch, above, t, k, steps, visited, scan, n, m, a, b);
      a, b := n + a, n + b;
    }
  }
}
