/** The reaper's pending objects: the reap-list chain (core/src/reaper.rs). */
module Reaper {
  import opened Results
  import opened Bytes
  import opened Image
  import Checkpoint

  const MAX_LISTS: nat := 4096
  const ENTRIES: nat := 64
  const ENTRY_LEN: nat := 40

  datatype Pending = Pending(oid: nat, objType: nat)

  /** One reap list: the oid of the next (0 at the end) and its entries. */
  datatype List = List(next: nat, entries: seq<Pending>)

  /** Reap lists by ephemeral oid. */
  type Lists = nat -> Result<List>

  // ---------- reading one list ----------

  function PaddrOf(mappings: seq<Checkpoint.Mapping>, oid: nat): Option<nat> {
    if mappings == [] then None
    else if mappings[0].oid == oid then Some(mappings[0].paddr)
    else PaddrOf(mappings[1..], oid)
  }

  /** The pending object at index i, unless the slot is empty. */
  function PendingAt(block: seq<Byte>, i: nat): seq<Pending> {
    var e := ENTRIES + i * ENTRY_LEN;
    if LeU64(block, e + 24) != 0 then [Pending(LeU64(block, e + 24), LeU32(block, e + 8))] else []
  }

  function FirstPending(block: seq<Byte>, n: nat): seq<Pending> {
    if n == 0 then [] else FirstPending(block, n - 1) + PendingAt(block, n - 1)
  }

  /** The stored count, no larger than the block can hold. */
  function CountOf(block: seq<Byte>, bs: nat): nat {
    var most := if bs < ENTRIES then 0 else (bs - ENTRIES) / ENTRY_LEN;
    if LeU32(block, 48) <= most then LeU32(block, 48) else most
  }

  function ReadList(img: seq<Byte>, bs: nat, mappings: seq<Checkpoint.Mapping>, oid: nat): Result<List> {
    match PaddrOf(mappings, oid)
    case None => Err(OmapUnresolved(oid, 0))
    case Some(paddr) =>
      var block :- ReadObject(img, bs, paddr);
      Ok(List(LeU64(block, 32), FirstPending(block, CountOf(block, bs))))
  }

  function ListsOf(img: seq<Byte>, bs: nat, mappings: seq<Checkpoint.Mapping>): Lists {
    (oid: nat) => ReadList(img, bs, mappings, oid)
  }

  // ---------- the guarded walk ----------

  /** The chain from oid, refusing a list seen before and more than MAX_LISTS lists. */
  function Chain(lists: Lists, seen: set<nat>, oid: nat): Result<seq<Pending>>
    decreases MAX_LISTS - |seen|
  {
    if oid == 0 then Ok([])
    else if oid in seen || |seen| >= MAX_LISTS then Err(CycleGuard(MAX_LISTS))
    else
      var list :- lists(oid);
      var rest :- Chain(lists, seen + {oid}, list.next);
      Ok(list.entries + rest)
  }

  /** The object being reaped now, if any. */
  function InProgress(reaper: seq<Byte>): seq<Pending> {
    if LeU64(reaper, 88) != 0 then [Pending(LeU64(reaper, 88), LeU32(reaper, 72))] else []
  }

  function PendingOf(img: seq<Byte>, bs: nat, paddr: nat, mappings: seq<Checkpoint.Mapping>): Result<seq<Pending>> {
    var reaper :- ReadObject(img, bs, paddr);
    var queued :- Chain(ListsOf(img, bs, mappings), {}, LeU64(reaper, 48));
    Ok(InProgress(reaper) + queued)
  }

  method ReadEntries(block: seq<Byte>, bs: nat, before: seq<Pending>) returns (out: seq<Pending>)
    ensures out == before + FirstPending(block, CountOf(block, bs))
  {
    out := before;
    for i := 0 to CountOf(block, bs)
      invariant out == before + FirstPending(block, i)
    {
      out := out + PendingAt(block, i);
    }
  }

  /** What the walk returns once `out` has been gathered. */
  function After(out: seq<Pending>, rest: Result<seq<Pending>>): Result<seq<Pending>> {
    var tail :- rest;
    Ok(out + tail)
  }

  lemma {:induction false} AfterAfter(a: seq<Pending>, b: seq<Pending>, rest: Result<seq<Pending>>)
    ensures After(a, After(b, rest)) == After(a + b, rest)
  {
    if rest.Ok? {
      assert a + (b + rest.value) == (a + b) + rest.value;
    }
  }

  /** `pending_objects`. */
  method PendingObjects(img: seq<Byte>, bs: nat, paddr: nat, mappings: seq<Checkpoint.Mapping>)
    returns (r: Result<seq<Pending>>)
    ensures r == PendingOf(img, bs, paddr, mappings)
  {
    var reaper := ReadObject(img, bs, paddr);
    if reaper.Err? {
      return Err(reaper.error);
    }
    var out := InProgress(reaper.value);
    var seen: set<nat> := {};
    var next := LeU64(reaper.value, 48);
    ghost var lists := ListsOf(img, bs, mappings);
    assert PendingOf(img, bs, paddr, mappings) == After(out, Chain(lists, seen, next));
    while next != 0
      invariant PendingOf(img, bs, paddr, mappings) == After(out, Chain(lists, seen, next))
      decreases MAX_LISTS - |seen|
    {
      if next in seen || |seen| >= MAX_LISTS {
        return Err(CycleGuard(MAX_LISTS));
      }
      var found := PaddrOf(mappings, next);
      if found.None? {
        return Err(OmapUnresolved(next, 0));
      }
      var block := ReadObject(img, bs, found.value);
      if block.Err? {
        return Err(block.error);
      }
      ghost var list := lists(next).value;
      AfterAfter(out, list.entries, Chain(lists, seen + {next}, list.next));
      out := ReadEntries(block.value, bs, out);
      seen := seen + {next};
      next := LeU64(block.value, 32);
    }
    assert out + [] == out;
    return Ok(out);
  }

  // ---------- what the guard admits ----------

  /** The oid n lists along the chain; nothing once the chain has ended or a list cannot be read. */
  function Nth(lists: Lists, oid: nat, n: nat): Option<nat>
    decreases n
  {
    if n == 0 then Some(oid)
    else if oid == 0 || lists(oid).Err? then None
    else Nth(lists, lists(oid).value.next, n - 1)
  }

  /** The entries of the first n lists, in chain order. */
  function Gather(lists: Lists, oid: nat, n: nat): seq<Pending>
    decreases n
  {
    if n == 0 || oid == 0 || lists(oid).Err? then []
    else lists(oid).value.entries + Gather(lists, lists(oid).value.next, n - 1)
  }

  lemma {:induction false} NthAdd(lists: Lists, oid: nat, m: nat, n: nat)
    requires Nth(lists, oid, m).Some?
    ensures Nth(lists, oid, m + n) == Nth(lists, Nth(lists, oid, m).value, n)
    decreases m
  {
    if m > 0 {
      NthAdd(lists, lists(oid).value.next, m - 1, n);
    }
  }

  lemma {:induction false} NthBefore(lists: Lists, oid: nat, m: nat, n: nat)
    requires m < n && Nth(lists, oid, n).Some?
    ensures Nth(lists, oid, m).Some? && Nth(lists, oid, m).value != 0
    decreases m
  {
    if m > 0 {
      NthBefore(lists, lists(oid).value.next, m - 1, n - 1);
    }
  }

  /** A chain that returns to where it was never ends. */
  lemma {:induction false} CycleNeverEnds(lists: Lists, oid: nat, period: nat, n: nat)
    requires period > 0 && Nth(lists, oid, period) == Some(oid)
    ensures Nth(lists, oid, n).Some? && Nth(lists, oid, n).value != 0
    decreases n
  {
    if n < period {
      NthBefore(lists, oid, n, period);
    } else {
      CycleNeverEnds(lists, oid, period, n - period);
      NthAdd(lists, oid, period, n - period);
    }
  }

  /** Every list in seen lies on the chain before position k. */
  ghost predicate Passed(lists: Lists, head: nat, seen: set<nat>, k: nat) {
    forall x: nat :: x in seen ==> exists j: nat :: j < k && Nth(lists, head, j) == Some(x)
  }

  lemma {:induction false} Revisit(lists: Lists, head: nat, seen: set<nat>, k: nat)
    requires Passed(lists, head, seen, k) && Nth(lists, head, k).Some? && Nth(lists, head, k).value in seen && k <= MAX_LISTS
    ensures Nth(lists, head, MAX_LISTS).Some? && Nth(lists, head, MAX_LISTS).value != 0
  {
    var oid := Nth(lists, head, k).value;
    var j: nat :| j < k && Nth(lists, head, j) == Some(oid);
    NthAdd(lists, head, j, k - j);
    CycleNeverEnds(lists, oid, k - j, MAX_LISTS - j);
    NthAdd(lists, head, j, MAX_LISTS - j);
  }

  lemma {:induction false} PassedMore(lists: Lists, head: nat, seen: set<nat>, k: nat, oid: nat)
    requires Passed(lists, head, seen, k) && Nth(lists, head, k) == Some(oid)
    ensures Passed(lists, head, seen + {oid}, k + 1)
  {
    forall x: nat | x in seen + {oid} ensures exists j: nat :: j < k + 1 && Nth(lists, head, j) == Some(x) {
      if x in seen {
        var j: nat :| j < k && Nth(lists, head, j) == Some(x);
        assert j < k + 1;
      } else {
        assert k < k + 1 && Nth(lists, head, k) == Some(x);
      }
    }
  }

  /** The outcome of a walk that stopped at position n: at the end, at an unreadable list, or at the cap. */
  ghost predicate Stops(lists: Lists, head: nat, n: nat, r: Result<seq<Pending>>, gathered: seq<Pending>) {
    && n <= MAX_LISTS && Nth(lists, head, n).Some?
    && var x := Nth(lists, head, n).value;
       if x == 0 then r == Ok(gathered)
       else if n == MAX_LISTS then r == Err(CycleGuard(MAX_LISTS))
       else lists(x).Err? && r == Err(lists(x).error)
  }

  lemma {:induction false} WalkStops(lists: Lists, head: nat, seen: set<nat>, k: nat, oid: nat) returns (n: nat)
    requires Passed(lists, head, seen, k) && Nth(lists, head, k) == Some(oid) && |seen| == k <= MAX_LISTS
    ensures k <= n && Stops(lists, head, n, Chain(lists, seen, oid), Gather(lists, oid, n - k))
    decreases MAX_LISTS - k
  {
    if oid == 0 {
      n := k;
    } else if oid in seen {
      Revisit(lists, head, seen, k);
      n := MAX_LISTS;
    } else if k >= MAX_LISTS || lists(oid).Err? {
      n := k;
    } else {
      var next := lists(oid).value.next;
      PassedMore(lists, head, seen, k, oid);
      NthAdd(lists, head, k, 1);
      assert Nth(lists, oid, 1) == Some(next);
      n := WalkStops(lists, head, seen + {oid}, k + 1, next);
    }
  }

  /** The chain from head ends after n lists, all of them readable. */
  ghost predicate EndsAfter(lists: Lists, head: nat, n: nat) {
    Nth(lists, head, n) == Some(0)
  }

  lemma {:induction false} EndIsUnique(lists: Lists, head: nat, m: nat, n: nat)
    requires EndsAfter(lists, head, m) && Nth(lists, head, n).Some?
    ensures n <= m && (Nth(lists, head, n).value == 0 ==> n == m)
  {
    if n > m {
      NthBefore(lists, head, m, n);
    } else if n < m {
      NthBefore(lists, head, n, m);
    }
  }

  /**
   The walk returns the entries of the whole chain, in chain order, exactly when
   the chain ends within MAX_LISTS lists; the guard fires exactly when MAX_LISTS
   lists were readable and the chain still goes on, as every cycle does.
   */
  lemma {:induction false} ChainExact(lists: Lists, head: nat)
    requires forall x: nat :: lists(x) != Err(CycleGuard(4096))
    ensures Chain(lists, {}, head).Ok? <==> exists n: nat :: n <= 4096 && EndsAfter(lists, head, n)
    ensures forall n: nat :: n <= 4096 && EndsAfter(lists, head, n) ==> Chain(lists, {}, head) == Ok(Gather(lists, head, n))
    ensures Chain(lists, {}, head) == Err(CycleGuard(4096)) <==>
              Nth(lists, head, 4096).Some? && Nth(lists, head, 4096).value != 0
  {
    var k := WalkStops(lists, head, {}, 0, head);
    forall n: nat | n <= MAX_LISTS && EndsAfter(lists, head, n) ensures n == k {
      EndIsUnique(lists, head, n, k);
      if k < n {
        NthAdd(lists, head, k, 1);
        NthBefore(lists, head, k, n);
        Readable(lists, head, k, n);
      }
    }
    if Chain(lists, {}, head).Ok? {
      assert EndsAfter(lists, head, k);
    }
    if Nth(lists, head, MAX_LISTS).Some? && Nth(lists, head, MAX_LISTS).value != 0 && k < MAX_LISTS {
      NthBefore(lists, head, k, MAX_LISTS);
      Readable(lists, head, k, MAX_LISTS);
    }
  }

  /** A list the chain has passed was readable. */
  lemma {:induction false} Readable(lists: Lists, head: nat, k: nat, n: nat)
    requires k < n && Nth(lists, head, n).Some? && Nth(lists, head, k).Some?
    ensures lists(Nth(lists, head, k).value).Ok?
  {
    NthAdd(lists, head, k, n - k);
  }

  /** The lists of an image never fail with the guard's own error. */
  lemma {:induction false} ListErrors(img: seq<Byte>, bs: nat, mappings: seq<Checkpoint.Mapping>, oid: nat)
    ensures ListsOf(img, bs, mappings)(oid) != Err(CycleGuard(MAX_LISTS))
  {
  }

  /** The pending objects of an image: the object in progress, then the whole chain, exactly when it ends. */
  lemma {:induction false} PendingExact(img: seq<Byte>, bs: nat, paddr: nat, mappings: seq<Checkpoint.Mapping>)
    requires ReadObject(img, bs, paddr).Ok?
    ensures var reaper := ReadObject(img, bs, paddr).value;
            var lists, head := ListsOf(img, bs, mappings), LeU64(reaper, 48);
            var r := PendingOf(img, bs, paddr, mappings);
            && (r.Ok? <==> exists n: nat :: n <= 4096 && EndsAfter(lists, head, n))
            && (forall n: nat :: n <= 4096 && EndsAfter(lists, head, n) ==>
                                   r == Ok(InProgress(reaper) + Gather(lists, head, n)))
            && (r == Err(CycleGuard(4096)) <==>
                  Nth(lists, head, 4096).Some? && Nth(lists, head, 4096).value != 0)
  {
    var reaper := ReadObject(img, bs, paddr).value;
    forall x: nat ensures ListsOf(img, bs, mappings)(x) != Err(CycleGuard(MAX_LISTS)) {
      ListErrors(img, bs, mappings, x);
    }
    ChainExact(ListsOf(img, bs, mappings), LeU64(reaper, 48));
  }
}
