/** Reapers and reap lists written out, and the pending objects read back (core/src/reaper.rs). */
module PrintedReaper {
  import opened Results
  import opened Bytes
  import opened Printers
  import Checkpoint
  import opened Reaper

  // ---------- entries ----------

  /** A slot of a reap list; an object id of 0 is an empty slot. */
  datatype Slot = Slot(lead: seq<Byte>, objType: nat, mid: seq<Byte>, oid: nat, tail: seq<Byte>)

  predicate SlotFits(x: Slot) {
    |x.lead| == 8 && x.objType < 0x1_0000_0000 && |x.mid| == 12 && x.oid < U64 && |x.tail| == 8
  }

  function PrintSlot(x: Slot): seq<Byte> {
    x.lead + (LeBytes(x.objType, 4) + (x.mid + (LeBytes(x.oid, 8) + x.tail)))
  }

  function PrintSlots(xs: seq<Slot>): seq<Byte> {
    if xs == [] then [] else PrintSlot(xs[0]) + PrintSlots(xs[1..])
  }

  ghost predicate AllFit(xs: seq<Slot>) {
    forall x :: x in xs ==> SlotFits(x)
  }

  /** The pending objects of the slots that are not empty. */
  function PendingIn(xs: seq<Slot>): seq<Pending> {
    if xs == [] then []
    else PendingIn(xs[..|xs| - 1]) + if xs[|xs| - 1].oid != 0 then [Pending(xs[|xs| - 1].oid, xs[|xs| - 1].objType)] else []
  }

  lemma {:induction false} SlotAt(block: seq<Byte>, at: nat, xs: seq<Slot>, i: nat)
    requires At(block, at, PrintSlots(xs)) && AllFit(xs) && i < |xs|
    ensures At(block, at + 40 * i, PrintSlot(xs[i]))
    decreases |xs|
  {
    assert xs[0] in xs;
    AtSplit(block, at, PrintSlot(xs[0]), PrintSlots(xs[1..]));
    if i > 0 {
      assert forall x :: x in xs[1..] ==> x in xs;
      SlotAt(block, at + 40, xs[1..], i - 1);
    }
  }

  lemma {:induction false} SlotReads(block: seq<Byte>, at: nat, x: Slot)
    requires SlotFits(x) && At(block, at, PrintSlot(x))
    ensures LeU32(block, at + 8) == x.objType && LeU64(block, at + 24) == x.oid
  {
    Pow256Values();
    var r24 := LeBytes(x.oid, 8) + x.tail;
    AtSplit(block, at, x.lead, LeBytes(x.objType, 4) + (x.mid + r24));
    FieldThen(block, at + 8, x.objType, 4, x.mid + r24);
    AtSplit(block, at + 12, x.mid, r24);
    FieldThen(block, at + 24, x.oid, 8, x.tail);
  }

  lemma {:induction false} SlotPending(block: seq<Byte>, xs: seq<Slot>, i: nat)
    requires At(block, 64, PrintSlots(xs)) && AllFit(xs) && i < |xs|
    ensures PendingAt(block, i) == if xs[i].oid != 0 then [Pending(xs[i].oid, xs[i].objType)] else []
  {
    SlotAt(block, 64, xs, i);
    assert xs[i] in xs;
    SlotReads(block, 64 + 40 * i, xs[i]);
  }

  lemma {:induction false} SlotsRead(block: seq<Byte>, xs: seq<Slot>, n: nat)
    requires At(block, 64, PrintSlots(xs)) && AllFit(xs) && n <= |xs|
    ensures FirstPending(block, n) == PendingIn(xs[..n])
    decreases n
  {
    if n > 0 {
      SlotsRead(block, xs, n - 1);
      SlotPending(block, xs, n - 1);
      assert xs[..n][..n - 1] == xs[..n - 1];
    }
  }

  // ---------- lists and the reaper ----------

  /** A reap list and where it is. */
  datatype Written = Written(oid: nat, paddr: nat, header: Header, slots: seq<Slot>, rest: seq<Byte>)

  function ListBody(next: nat, w: Written): seq<Byte> {
    LeBytes(next, 8) + (Zeros(8) + (LeBytes(|w.slots|, 4) + (Zeros(12) + (PrintSlots(w.slots) + w.rest))))
  }

  function PrintList(next: nat, w: Written): seq<Byte> {
    PrintObject(w.header, 0x13, ListBody(next, w))
  }

  lemma {:induction false} SlotsLength(xs: seq<Slot>)
    requires AllFit(xs)
    ensures |PrintSlots(xs)| == 40 * |xs|
  {
    if xs != [] {
      assert xs[0] in xs;
      assert forall x :: x in xs[1..] ==> x in xs;
      SlotsLength(xs[1..]);
    }
  }

  lemma {:induction false} ListFields(block: seq<Byte>, next: nat, n: nat, slots: seq<Byte>, rest: seq<Byte>)
    requires next < U64 && n < 0x1_0000_0000
    requires At(block, 32, LeBytes(next, 8) + (Zeros(8) + (LeBytes(n, 4) + (Zeros(12) + (slots + rest)))))
    ensures LeU64(block, 32) == next && LeU32(block, 48) == n && At(block, 64, slots)
  {
    Pow256Values();
    var r52 := Zeros(12) + (slots + rest);
    var r48 := LeBytes(n, 4) + r52;
    FieldThen(block, 32, next, 8, Zeros(8) + r48);
    AtSplit(block, 40, Zeros(8), r48);
    FieldThen(block, 48, n, 4, r52);
    AtSplit(block, 52, Zeros(12), slots + rest);
    AtSplit(block, 64, slots, rest);
  }

  lemma {:induction false} ListReads(next: nat, w: Written, bs: nat)
    requires next < U64 && HeaderFits(w.header) && AllFit(w.slots) && |PrintList(next, w)| == bs <= 0x1_0000
    ensures var block := PrintList(next, w);
            LeU64(block, 32) == next && FirstPending(block, CountOf(block, bs)) == PendingIn(w.slots)
  {
    var block := PrintList(next, w);
    ObjectReads(w.header, 0x13, ListBody(next, w));
    SlotsLength(w.slots);
    ListFields(block, next, |w.slots|, PrintSlots(w.slots), w.rest);
    SlotsRead(block, w.slots, |w.slots|);
    assert w.slots[..|w.slots|] == w.slots;
  }

  /** The first mapping of the oid is to this block. */
  ghost predicate MapsTo(mappings: seq<Checkpoint.Mapping>, oid: nat, paddr: nat) {
    exists i :: 0 <= i < |mappings| && mappings[i].oid == oid && mappings[i].paddr == paddr &&
      forall j :: 0 <= j < i ==> mappings[j].oid != oid
  }

  /** An ephemeral oid is found through its first mapping. */
  lemma {:induction false} FirstMapping(mappings: seq<Checkpoint.Mapping>, oid: nat, paddr: nat)
    ensures PaddrOf(mappings, oid) == Some(paddr) <==> MapsTo(mappings, oid, paddr)
  {
    if mappings != [] {
      var rest := mappings[1..];
      FirstMapping(rest, oid, paddr);
      if MapsTo(mappings, oid, paddr) && mappings[0].oid != oid {
        var i :| 0 <= i < |mappings| && mappings[i].oid == oid && mappings[i].paddr == paddr &&
          forall j :: 0 <= j < i ==> mappings[j].oid != oid;
        assert rest[i - 1] == mappings[i] && forall j :: 0 <= j < i - 1 ==> rest[j] == mappings[j + 1];
      }
      if MapsTo(rest, oid, paddr) && mappings[0].oid != oid {
        var i :| 0 <= i < |rest| && rest[i].oid == oid && rest[i].paddr == paddr && forall j :: 0 <= j < i ==> rest[j].oid != oid;
        assert mappings[i + 1] == rest[i] && forall j :: 0 < j < i + 1 ==> mappings[j] == rest[j - 1];
      }
    }
  }

  function ReaperBody(head: nat, objType: nat, oid: nat, rest: seq<Byte>): seq<Byte> {
    Zeros(16) + (LeBytes(head, 8) + (Zeros(16) + (LeBytes(objType, 4) + (Zeros(12) + (LeBytes(oid, 8) + rest)))))
  }

  /** A reaper: the oid of its first list, and the object it is working on (0 for none). */
  function PrintReaper(h: Header, head: nat, objType: nat, oid: nat, rest: seq<Byte>): seq<Byte> {
    PrintObject(h, 0x11, ReaperBody(head, objType, oid, rest))
  }

  lemma {:induction false} ReaperReads(h: Header, head: nat, objType: nat, oid: nat, rest: seq<Byte>)
    requires HeaderFits(h) && head < U64 && objType < 0x1_0000_0000 && oid < U64
    ensures var block := PrintReaper(h, head, objType, oid, rest);
            && LeU64(block, 48) == head
            && InProgress(block) == if oid != 0 then [Pending(oid, objType)] else []
  {
    var block := PrintReaper(h, head, objType, oid, rest);
    ObjectReads(h, 0x11, ReaperBody(head, objType, oid, rest));
    Pow256Values();
    var r88 := LeBytes(oid, 8) + rest;
    var r76 := Zeros(12) + r88;
    var r72 := LeBytes(objType, 4) + r76;
    var r56 := Zeros(16) + r72;
    AtSplit(block, 32, Zeros(16), LeBytes(head, 8) + r56);
    FieldThen(block, 48, head, 8, r56);
    AtSplit(block, 56, Zeros(16), r72);
    FieldThen(block, 72, objType, 4, r76);
    AtSplit(block, 76, Zeros(12), r88);
    FieldThen(block, 88, oid, 8, rest);
  }

  // ---------- chains ----------

  /** The oid of the first list of a chain, 0 when it is empty. */
  function HeadOf(chain: seq<Written>): nat {
    if chain == [] then 0 else chain[0].oid
  }

  /** Each list of the chain is on the image, mapped by its oid and naming the next. */
  ghost predicate ChainOn(img: seq<Byte>, bs: nat, mappings: seq<Checkpoint.Mapping>, chain: seq<Written>) {
    chain != [] ==>
      && 0 < chain[0].oid < U64 && HeaderFits(chain[0].header) && AllFit(chain[0].slots) && HeadOf(chain[1..]) < U64
      && MapsTo(mappings, chain[0].oid, chain[0].paddr)
      && BlockOn(img, bs, chain[0].paddr, PrintList(HeadOf(chain[1..]), chain[0]))
      && ChainOn(img, bs, mappings, chain[1..])
  }

  /** The pending objects of a chain, list after list. */
  function PendingOn(chain: seq<Written>): seq<Pending> {
    if chain == [] then [] else PendingIn(chain[0].slots) + PendingOn(chain[1..])
  }

  lemma {:induction false} ListOn(img: seq<Byte>, bs: nat, mappings: seq<Checkpoint.Mapping>, chain: seq<Written>)
    requires bs <= 0x1_0000 && ChainOn(img, bs, mappings, chain) && chain != []
    ensures ListsOf(img, bs, mappings)(chain[0].oid) == Ok(List(HeadOf(chain[1..]), PendingIn(chain[0].slots)))
  {
    var w, next := chain[0], HeadOf(chain[1..]);
    FirstMapping(mappings, w.oid, w.paddr);
    ObjectOn(img, bs, w.paddr, w.header, 0x13, ListBody(next, w));
    ListReads(next, w, bs);
  }

  /** The lists of the chain are what was written. */
  ghost predicate ListsAre(lists: Lists, chain: seq<Written>) {
    chain != [] ==>
      && chain[0].oid != 0 && lists(chain[0].oid) == Ok(List(HeadOf(chain[1..]), PendingIn(chain[0].slots)))
      && ListsAre(lists, chain[1..])
  }

  lemma {:induction false} ChainRead(img: seq<Byte>, bs: nat, mappings: seq<Checkpoint.Mapping>, chain: seq<Written>, lists: Lists)
    requires bs <= 0x1_0000 && ChainOn(img, bs, mappings, chain) && lists == ListsOf(img, bs, mappings)
    ensures ListsAre(lists, chain)
    decreases |chain|
  {
    if chain != [] {
      ListOn(img, bs, mappings, chain);
      ChainRead(img, bs, mappings, chain[1..], lists);
    }
  }

  lemma {:induction false} ChainEnds(lists: Lists, chain: seq<Written>)
    requires ListsAre(lists, chain)
    ensures EndsAfter(lists, HeadOf(chain), |chain|) && Gather(lists, HeadOf(chain), |chain|) == PendingOn(chain)
    decreases |chain|
  {
    if chain != [] {
      var rest := chain[1..];
      ChainEnds(lists, rest);
      ChainStep(lists, chain[0].oid, HeadOf(rest), PendingIn(chain[0].slots), |chain|);
    }
  }

  lemma {:induction false} ChainStep(lists: Lists, oid: nat, next: nat, entries: seq<Pending>, n: nat)
    requires oid != 0 && lists(oid) == Ok(List(next, entries)) && n > 0
    ensures Nth(lists, oid, n) == Nth(lists, next, n - 1) && Gather(lists, oid, n) == entries + Gather(lists, next, n - 1)
  {
  }

  /**
   A reaper and a chain of at most 4096 lists, written on any image: the pending
   objects are the one in progress, then the non-empty slots, list after list.
   */
  lemma {:induction false} PendingRoundTrip(img: seq<Byte>, bs: nat, paddr: nat, mappings: seq<Checkpoint.Mapping>,
                                            h: Header, objType: nat, oid: nat, rest: seq<Byte>, chain: seq<Written>)
    requires bs <= 0x1_0000 && ChainOn(img, bs, mappings, chain) && |chain| <= 4096
    requires HeaderFits(h) && objType < 0x1_0000_0000 && oid < U64
    requires BlockOn(img, bs, paddr, PrintReaper(h, HeadOf(chain), objType, oid, rest))
    ensures PendingOf(img, bs, paddr, mappings) == Ok((if oid != 0 then [Pending(oid, objType)] else []) + PendingOn(chain))
  {
    ObjectOn(img, bs, paddr, h, 0x11, ReaperBody(HeadOf(chain), objType, oid, rest));
    ReaperReads(h, HeadOf(chain), objType, oid, rest);
    var lists := ListsOf(img, bs, mappings);
    ChainRead(img, bs, mappings, chain, lists);
    ChainEnds(lists, chain);
    PendingExact(img, bs, paddr, mappings);
  }
}
