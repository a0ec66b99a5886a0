/** The three walkers over keybag entries (core/src/encryption.rs). */
module Keybag {
  import opened Results
  import opened Bytes
  import opened Arith
  import Ber

  const NKEYS: nat := 34
  const ENTRIES: nat := 48
  const ENTRY_HEADER: nat := 24
  const MAX_ENTRIES: nat := 4096

  datatype Tag = Unknown | WrappingKey | VolumeKey | VolumeUnlockRecords | VolumePassphraseHint | UserPayload

  function TagOf(raw: nat): Tag {
    match raw
    case 1 => WrappingKey
    case 2 => VolumeKey
    case 3 => VolumeUnlockRecords
    case 4 => VolumePassphraseHint
    case 0xf8 => UserPayload
    case _ => Unknown
  }

  /** One entry; its data is missing when it would run past the bag. */
  datatype Entry = Entry(off: nat, uuid: seq<Byte>, raw: nat, data: Option<seq<Byte>>)

  /** An entry's size, header included, rounded up to 16 bytes. */
  function EntryLen(keylen: nat): nat {
    Max((ENTRY_HEADER + keylen + 15) / 16 * 16, 16)
  }

  function EntryAt(bag: seq<Byte>, off: nat): Entry
    requires off + ENTRY_HEADER <= |bag|
  {
    var start := off + ENTRY_HEADER;
    Entry(off, bag[off..off + 16], LeU16(bag, off + 16), Slice(bag, start, start + LeU16(bag, off + 18)))
  }

  /** At most n entries from off; the walk ends where a header no longer fits. */
  function EntriesFrom(bag: seq<Byte>, n: nat, off: nat): seq<Entry> {
    if n == 0 || off + ENTRY_HEADER > |bag| then []
    else [EntryAt(bag, off)] + EntriesFrom(bag, n - 1, off + EntryLen(LeU16(bag, off + 18)))
  }

  function Count(bag: seq<Byte>): nat {
    Min(LeU16(bag, NKEYS), MAX_ENTRIES)
  }

  /** The entries every walker visits. */
  function Entries(bag: seq<Byte>): seq<Entry> {
    EntriesFrom(bag, Count(bag), ENTRIES)
  }

  // ---------- the observed state ----------

  datatype EncryptionState = EncryptionState(
    encrypted: bool, tags: seq<Tag>, hasHint: bool, unknown: seq<(nat, nat)>)

  /** Some entry carries the tag. */
  predicate Has(es: seq<Entry>, t: Tag) {
    es != [] && (TagOf(es[0].raw) == t || Has(es[1..], t))
  }

  /** The raw tag and offset of every entry with an unrecognised tag, in order. */
  function UnknownTags(es: seq<Entry>): seq<(nat, nat)> {
    if es == [] then []
    else (if TagOf(es[0].raw) == Unknown then [(es[0].raw, es[0].off)] else []) + UnknownTags(es[1..])
  }

  ghost predicate NoRepeats(tags: seq<Tag>) {
    forall i, j :: 0 <= i < j < |tags| ==> tags[i] != tags[j]
  }

  /** The position of the first entry with the tag. */
  function FirstAt(es: seq<Entry>, t: Tag): nat
    requires Has(es, t)
  {
    if TagOf(es[0].raw) == t then 0 else 1 + FirstAt(es[1..], t)
  }

  /** Tags in the order their first entries come. */
  ghost predicate FirstSeenOrder(tags: seq<Tag>, es: seq<Entry>) {
    forall i, j :: 0 <= i < j < |tags| ==> Has(es, tags[i]) && Has(es, tags[j]) && FirstAt(es, tags[i]) < FirstAt(es, tags[j])
  }

  ghost predicate Observed(s: EncryptionState, es: seq<Entry>) {
    && NoRepeats(s.tags) && FirstSeenOrder(s.tags, es)
    && (forall t: Tag :: t in s.tags <==> Has(es, t))
    && (s.hasHint <==> Has(es, VolumePassphraseHint))
    && (s.encrypted <==> Has(es, WrappingKey) || Has(es, VolumeKey) || Has(es, VolumeUnlockRecords))
    && s.unknown == UnknownTags(es)
  }

  datatype Tally = Tally(tags: seq<Tag>, unknown: seq<(nat, nat)>)

  /** One entry noted. */
  function Note(y: Tally, raw: nat, off: nat): Tally {
    var tag := TagOf(raw);
    Tally(if tag in y.tags then y.tags else y.tags + [tag],
          if tag == Unknown then y.unknown + [(raw, off)] else y.unknown)
  }

  function NoteAll(y: Tally, es: seq<Entry>): Tally
    decreases |es|
  {
    if es == [] then y else NoteAll(Note(y, es[0].raw, es[0].off), es[1..])
  }

  lemma {:induction false} NotedTag(y: Tally, es: seq<Entry>, t: Tag)
    ensures t in NoteAll(y, es).tags <==> t in y.tags || Has(es, t)
    decreases |es|
  {
    if es != [] {
      NotedTag(Note(y, es[0].raw, es[0].off), es[1..], t);
    }
  }

  lemma {:induction false} NotedOnce(y: Tally, es: seq<Entry>)
    requires NoRepeats(y.tags)
    ensures NoRepeats(NoteAll(y, es).tags)
    decreases |es|
  {
    if es != [] {
      NotedOnce(Note(y, es[0].raw, es[0].off), es[1..]);
    }
  }

  lemma {:induction false} NotedUnknown(y: Tally, es: seq<Entry>)
    ensures NoteAll(y, es).unknown == y.unknown + UnknownTags(es)
    decreases |es|
  {
    if es != [] {
      NotedUnknown(Note(y, es[0].raw, es[0].off), es[1..]);
    }
  }

  lemma {:induction false} NotedKeeps(y: Tally, es: seq<Entry>)
    ensures y.tags <= NoteAll(y, es).tags
    decreases |es|
  {
    if es != [] {
      NotedKeeps(Note(y, es[0].raw, es[0].off), es[1..]);
    }
  }

  /** Newly noted tags come in the order of their first entries. */
  lemma {:induction false} NotedInOrder(y: Tally, es: seq<Entry>, i: nat, j: nat)
    requires NoRepeats(y.tags) && |y.tags| <= i <= j < |NoteAll(y, es).tags|
    ensures var tags := NoteAll(y, es).tags;
            && Has(es, tags[i]) && Has(es, tags[j])
            && (i < j ==> FirstAt(es, tags[i]) < FirstAt(es, tags[j]))
    decreases |es|
  {
    if es != [] {
      var y' := Note(y, es[0].raw, es[0].off);
      var tags := NoteAll(y, es).tags;
      NotedOnce(y, es);
      NotedKeeps(y', es[1..]);
      assert forall k :: 0 <= k < |y'.tags| ==> y'.tags[k] == tags[k];
      if |y'.tags| <= i {
        NotedInOrder(y', es[1..], i, j);
        Later(y, y', tags, i, TagOf(es[0].raw));
        Later(y, y', tags, j, TagOf(es[0].raw));
      } else if i < j {
        NotedInOrder(y', es[1..], j, j);
        Later(y, y', tags, j, TagOf(es[0].raw));
      }
    }
  }

  /** A tag noted later is not the one just noted. */
  lemma {:induction false} Later(y: Tally, y': Tally, tags: seq<Tag>, i: nat, tag: Tag)
    requires NoRepeats(tags) && y'.tags <= tags && tag in y'.tags && |y'.tags| <= i < |tags|
    ensures tags[i] != tag
  {
    var k :| 0 <= k < |y'.tags| && y'.tags[k] == tag;
    assert tags[k] == tag;
  }

  lemma {:induction false} Noted(es: seq<Entry>, y: Tally)
    requires y == NoteAll(Tally([], []), es)
    ensures NoRepeats(y.tags) && FirstSeenOrder(y.tags, es) && y.unknown == UnknownTags(es)
    ensures forall t: Tag :: t in y.tags <==> Has(es, t)
  {
    var none := Tally([], []);
    NotedOnce(none, es);
    NotedUnknown(none, es);
    forall i, j | 0 <= i < j < |y.tags|
      ensures Has(es, y.tags[i]) && Has(es, y.tags[j]) && FirstAt(es, y.tags[i]) < FirstAt(es, y.tags[j])
    {
      NotedInOrder(none, es, i, j);
    }
    forall t: Tag ensures t in y.tags <==> Has(es, t) {
      NotedTag(none, es, t);
    }
  }

  /** `read_keybag`. */
  method ReadKeybag(bag: seq<Byte>) returns (s: EncryptionState)
    ensures Observed(s, Entries(bag))
  {
    var y := Tally([], []);
    var off: nat := ENTRIES;
    var n := Count(bag);
    while n > 0 && off + ENTRY_HEADER <= |bag|
      invariant NoteAll(Tally([], []), Entries(bag)) == NoteAll(y, EntriesFrom(bag, n, off))
      decreases n
    {
      var next := off + EntryLen(LeU16(bag, off + 18));
      ghost var e, rest := EntryAt(bag, off), EntriesFrom(bag, n - 1, next);
      assert ([e] + rest)[1..] == rest;
      y := Note(y, LeU16(bag, off + 16), off);
      off := next;
      n := n - 1;
    }
    Noted(Entries(bag), y);
    s := EncryptionState(
      WrappingKey in y.tags || VolumeKey in y.tags || VolumeUnlockRecords in y.tags,
      y.tags, VolumePassphraseHint in y.tags, y.unknown);
  }

  // ---------- one volume's records ----------

  const VEK_LEN: nat := 40
  const PRANGE_LEN: nat := 16

  datatype Extent = Extent(block: nat, count: nat)
  datatype Records = Records(key: seq<Byte>, extent: Extent)
  datatype Found = Found(key: Option<seq<Byte>>, extent: Option<Extent>)

  function DataOf(e: Entry): seq<Byte> {
    match e.data
    case Some(d) => d
    case None => []
  }

  /** The enclosing sequence when there is one. */
  function Unwrapped(data: seq<Byte>): seq<Byte> {
    match Ber.Find(data, 0x30)
    case Some(inner) => inner
    case None => data
  }

  /** The wrapped key nested two levels down. */
  function KeyIn(data: seq<Byte>): Result<seq<Byte>> {
    match Ber.Find(Unwrapped(data), 0xa3)
    case None => Err(FieldOutOfRange(NestedObjectField, |data|, 0xa3))
    case Some(obj) =>
      match Ber.Find(obj, 0x83)
      case None => Err(FieldOutOfRange(NestedKeyField, |obj|, 0x83))
      case Some(key) =>
        if |key| != VEK_LEN then Err(FieldOutOfRange(WrappedKeyLenField, |key|, VEK_LEN)) else Ok(key)
  }

  function ExtentIn(data: seq<Byte>): Result<Extent> {
    if |data| < PRANGE_LEN then Err(FieldOutOfRange(UnlockRecordsLenField, |data|, PRANGE_LEN))
    else Ok(Extent(LeU64(data, 0), LeU64(data, 8)))
  }

  /** One entry's effect: only entries of the volume count, and a later one replaces an earlier one. */
  function Absorb(f: Found, e: Entry, uuid: seq<Byte>): Result<Found> {
    if e.uuid != uuid then Ok(f)
    else match TagOf(e.raw)
      case VolumeKey => var key :- KeyIn(DataOf(e)); Ok(f.(key := Some(key)))
      case VolumeUnlockRecords => var x :- ExtentIn(DataOf(e)); Ok(f.(extent := Some(x)))
      case _ => Ok(f)
  }

  function AbsorbAll(f: Found, es: seq<Entry>, uuid: seq<Byte>): Result<Found>
    decreases |es|
  {
    if es == [] then Ok(f) else
    var f' :- Absorb(f, es[0], uuid);
    AbsorbAll(f', es[1..], uuid)
  }

  function Finish(f: Found): Result<Records> {
    match f.extent
    case None => Err(FieldOutOfRange(UnlockRecordsMissingField, 0, 1))
    case Some(x) =>
      match f.key
      case None => Err(FieldOutOfRange(VolumeKeyMissingField, 0, 1))
      case Some(key) => Ok(Records(key, x))
  }

  const NOTHING: Found := Found(None, None)

  /** What a volume's records are, as a function of the entries alone. */
  function RecordsOf(es: seq<Entry>, uuid: seq<Byte>): Result<Records> {
    var f :- AbsorbAll(NOTHING, es, uuid);
    Finish(f)
  }

  lemma {:induction false} AbsorbNext(f: Found, e: Entry, rest: seq<Entry>, uuid: seq<Byte>)
    ensures AbsorbAll(f, [e] + rest, uuid) ==
            match Absorb(f, e, uuid) { case Err(err) => Err(err) case Ok(f') => AbsorbAll(f', rest, uuid) }
  {
    assert ([e] + rest)[1..] == rest;
  }

  /** `volume_records`. */
  method VolumeRecords(bag: seq<Byte>, uuid: seq<Byte>) returns (r: Result<Records>)
    ensures r == RecordsOf(Entries(bag), uuid)
  {
    var f := NOTHING;
    var off: nat := ENTRIES;
    var n := Count(bag);
    while n > 0 && off + ENTRY_HEADER <= |bag|
      invariant AbsorbAll(NOTHING, Entries(bag), uuid) == AbsorbAll(f, EntriesFrom(bag, n, off), uuid)
      decreases n
    {
      var e := EntryAt(bag, off);
      var next := off + EntryLen(LeU16(bag, off + 18));
      AbsorbNext(f, e, EntriesFrom(bag, n - 1, next), uuid);
      var absorbed := AbsorbEntry(f, e, uuid);
      if absorbed.Err? {
        return Err(absorbed.error);
      }
      f := absorbed.value;
      off := next;
      n := n - 1;
    }
    return Finish(f);
  }

  method AbsorbEntry(f: Found, e: Entry, uuid: seq<Byte>) returns (r: Result<Found>)
    ensures r == Absorb(f, e, uuid)
  {
    r := Ok(f);
    if e.uuid == uuid {
      match TagOf(e.raw) {
        case VolumeKey =>
          var key := KeyIn(DataOf(e));
          r := if key.Ok? then Ok(f.(key := Some(key.value))) else Err(key.error);
        case VolumeUnlockRecords =>
          var x := ExtentIn(DataOf(e));
          r := if x.Ok? then Ok(f.(extent := Some(x.value))) else Err(x.error);
        case _ =>
      }
    }
  }

  function OfVolume(es: seq<Entry>, uuid: seq<Byte>): seq<Entry> {
    if es == [] then [] else (if es[0].uuid == uuid then [es[0]] else []) + OfVolume(es[1..], uuid)
  }

  lemma {:induction false} AbsorbOwn(f: Found, es: seq<Entry>, uuid: seq<Byte>)
    ensures AbsorbAll(f, es, uuid) == AbsorbAll(f, OfVolume(es, uuid), uuid)
    decreases |es|
  {
    if es != [] {
      var rest := OfVolume(es[1..], uuid);
      if es[0].uuid == uuid {
        assert ([es[0]] + rest)[1..] == rest;
        var f' := Absorb(f, es[0], uuid);
        if f'.Ok? {
          AbsorbOwn(f'.value, es[1..], uuid);
        }
      } else {
        AbsorbOwn(f, es[1..], uuid);
        assert [] + rest == rest;
      }
    }
  }

  /** No other volume's entry, well-formed or not, can change a volume's records. */
  lemma {:induction false} NeverCrossesVolumes(es: seq<Entry>, others: seq<Entry>, uuid: seq<Byte>)
    requires OfVolume(es, uuid) == OfVolume(others, uuid)
    ensures RecordsOf(es, uuid) == RecordsOf(others, uuid)
  {
    AbsorbOwn(NOTHING, es, uuid);
    AbsorbOwn(NOTHING, others, uuid);
  }

  /** Every key and extent entry of the volume has the size and shape the format allows. */
  predicate WellFormed(es: seq<Entry>, uuid: seq<Byte>) {
    if es == [] then true else
    && (es[0].uuid == uuid && TagOf(es[0].raw) == VolumeKey ==> KeyIn(DataOf(es[0])).Ok?)
    && (es[0].uuid == uuid && TagOf(es[0].raw) == VolumeUnlockRecords ==> |DataOf(es[0])| >= PRANGE_LEN)
    && WellFormed(es[1..], uuid)
  }

  /** The last entry of the volume with the tag. */
  function LastOf(es: seq<Entry>, uuid: seq<Byte>, tag: Tag): Option<Entry> {
    if es == [] then None
    else if LastOf(es[1..], uuid, tag).Some? then LastOf(es[1..], uuid, tag)
    else if es[0].uuid == uuid && TagOf(es[0].raw) == tag then Some(es[0])
    else None
  }

  /** The state f, or what the last matching entries say. */
  predicate LastWins(f: Found, g: Found, es: seq<Entry>, uuid: seq<Byte>) {
    && (match LastOf(es, uuid, VolumeKey)
        case None => g.key == f.key
        case Some(e) => KeyIn(DataOf(e)).Ok? && g.key == Some(KeyIn(DataOf(e)).value))
    && (match LastOf(es, uuid, VolumeUnlockRecords)
        case None => g.extent == f.extent
        case Some(e) => ExtentIn(DataOf(e)).Ok? && g.extent == Some(ExtentIn(DataOf(e)).value))
  }

  lemma {:induction false} AbsorbedLast(f: Found, es: seq<Entry>, uuid: seq<Byte>)
    ensures AbsorbAll(f, es, uuid).Ok? <==> WellFormed(es, uuid)
    ensures WellFormed(es, uuid) ==> LastWins(f, AbsorbAll(f, es, uuid).value, es, uuid)
    decreases |es|
  {
    if es != [] {
      var f' := Absorb(f, es[0], uuid);
      if f'.Ok? {
        AbsorbedLast(f'.value, es[1..], uuid);
      }
    }
  }

  /**
   A volume's records are found exactly when its key and extent entries are all
   well-formed and there is at least one of each; the last of each wins, and the
   key is 40 bytes found two levels down in an entry of that very volume.
   */
  lemma {:induction false} RecordsExact(es: seq<Entry>, uuid: seq<Byte>)
    ensures RecordsOf(es, uuid).Ok? <==>
              && WellFormed(es, uuid)
              && LastOf(es, uuid, VolumeKey).Some?
              && LastOf(es, uuid, VolumeUnlockRecords).Some?
    ensures RecordsOf(es, uuid).Ok? ==>
              var r := RecordsOf(es, uuid).value;
              var k, x := LastOf(es, uuid, VolumeKey).value, LastOf(es, uuid, VolumeUnlockRecords).value;
              && k in es && k.uuid == uuid && KeyIn(DataOf(k)) == Ok(r.key) && |r.key| == VEK_LEN
              && x in es && x.uuid == uuid && ExtentIn(DataOf(x)) == Ok(r.extent)
  {
    AbsorbedLast(NOTHING, es, uuid);
    LastIsOwn(es, uuid, VolumeKey);
    LastIsOwn(es, uuid, VolumeUnlockRecords);
  }

  lemma {:induction false} LastIsOwn(es: seq<Entry>, uuid: seq<Byte>, tag: Tag)
    ensures LastOf(es, uuid, tag).Some? ==>
              LastOf(es, uuid, tag).value in es && LastOf(es, uuid, tag).value.uuid == uuid
  {
    if es != [] {
      LastIsOwn(es[1..], uuid, tag);
    }
  }

  // ---------- the key-encryption key of a volume keybag ----------

  /** The nested object an entry offers, if its tag allows one and its data is all there. */
  function KekIn(e: Entry): Option<seq<Byte>> {
    if TagOf(e.raw) != WrappingKey && TagOf(e.raw) != VolumeUnlockRecords then None
    else match e.data
      case None => None
      case Some(d) => Ber.Find(Unwrapped(d), 0xa3)
  }

  function FirstKek(es: seq<Entry>): Option<seq<Byte>> {
    if es == [] then None else if KekIn(es[0]).Some? then KekIn(es[0]) else FirstKek(es[1..])
  }

  /** `find_kek_object`. */
  method FindKekObject(bag: seq<Byte>) returns (r: Option<seq<Byte>>)
    ensures r == FirstKek(Entries(bag))
  {
    var off: nat := ENTRIES;
    var n := Count(bag);
    while n > 0 && off + ENTRY_HEADER <= |bag|
      invariant FirstKek(Entries(bag)) == FirstKek(EntriesFrom(bag, n, off))
      decreases n
    {
      var e := EntryAt(bag, off);
      var next := off + EntryLen(LeU16(bag, off + 18));
      ghost var rest := EntriesFrom(bag, n - 1, next);
      assert ([e] + rest)[1..] == rest;
      var kek := KekIn(e);
      if kek.Some? {
        return kek;
      }
      off := next;
      n := n - 1;
    }
    return None;
  }

  /** Entries that offer no object, tag and data alike, never hide one that does. */
  lemma {:induction false} FirstKekSkips(before: seq<Entry>, es: seq<Entry>)
    requires forall e: Entry :: e in before ==> KekIn(e) == None
    ensures FirstKek(before + es) == FirstKek(es)
  {
    if before == [] {
      assert before + es == es;
    } else {
      assert before[0] in before;
      assert (before + es)[1..] == before[1..] + es;
      FirstKekSkips(before[1..], es);
    }
  }

  // ---------- the layout all three read ----------

  datatype Item = Item(uuid: seq<Byte>, raw: nat, data: seq<Byte>)

  ghost predicate Fits(i: Item) {
    |i.uuid| == 16 && i.raw < 0x1_0000 && |i.data| < 0x1_0000
  }

  ghost predicate AllFit(items: seq<Item>) {
    forall i: Item :: i in items ==> Fits(i)
  }

  function Fixed(i: Item): seq<Byte> {
    i.uuid + (LeBytes(i.raw, 2) + (LeBytes(|i.data|, 2) + Zeros(4)))
  }

  function Padding(i: Item): seq<Byte> {
    Zeros((16 - (24 + |i.data|) % 16) % 16)
  }

  /** One entry on disk: header, data, padding to 16 bytes. */
  function Printed(i: Item): seq<Byte> {
    Fixed(i) + (i.data + Padding(i))
  }

  function PrintedAll(items: seq<Item>): seq<Byte> {
    if items == [] then [] else Printed(items[0]) + PrintedAll(items[1..])
  }

  /** The first n items as a walk from off sees them. */
  function Placed(items: seq<Item>, n: nat, off: nat): seq<Entry> {
    if items == [] || n == 0 then []
    else [Entry(off, items[0].uuid, items[0].raw, Some(items[0].data))] +
         Placed(items[1..], n - 1, off + |Printed(items[0])|)
  }

  lemma {:induction false} FieldsOf(bag: seq<Byte>, off: nat, i: Item)
    requires Fits(i) && At(bag, off, Fixed(i))
    ensures off + ENTRY_HEADER <= |bag| && bag[off..off + 16] == i.uuid
    ensures LeU16(bag, off + 16) == i.raw && LeU16(bag, off + 18) == |i.data|
  {
    var raw, len := LeBytes(i.raw, 2), LeBytes(|i.data|, 2);
    Pow256Values();
    AtSplit(bag, off, i.uuid, raw + (len + Zeros(4)));
    FieldThen(bag, off + 16, i.raw, 2, len + Zeros(4));
    FieldThen(bag, off + 18, |i.data|, 2, Zeros(4));
  }

  lemma {:induction false} EntryOf(bag: seq<Byte>, off: nat, i: Item)
    requires Fits(i) && At(bag, off, Printed(i))
    ensures off + ENTRY_HEADER <= |bag| && LeU16(bag, off + 18) == |i.data|
    ensures EntryAt(bag, off) == Entry(off, i.uuid, i.raw, Some(i.data))
  {
    AtSplit(bag, off, Fixed(i), i.data + Padding(i));
    FieldsOf(bag, off, i);
    AtSplit(bag, off + ENTRY_HEADER, i.data, Padding(i));
  }

  lemma {:induction false} PrintedLength(i: Item)
    requires |i.uuid| == 16
    ensures |Printed(i)| == EntryLen(|i.data|)
  {
    var n := 24 + |i.data|;
    assert (n + 15) / 16 * 16 == n + (16 - n % 16) % 16;
  }

  lemma {:induction false} PrintedStep(bag: seq<Byte>, items: seq<Item>, off: nat)
    requires items != [] && Fits(items[0]) && At(bag, off, PrintedAll(items))
    ensures off + ENTRY_HEADER <= |bag| && LeU16(bag, off + 18) == |items[0].data|
    ensures EntryAt(bag, off) == Entry(off, items[0].uuid, items[0].raw, Some(items[0].data))
    ensures At(bag, off + EntryLen(|items[0].data|), PrintedAll(items[1..]))
  {
    AtSplit(bag, off, Printed(items[0]), PrintedAll(items[1..]));
    PrintedLength(items[0]);
    EntryOf(bag, off, items[0]);
  }

  lemma {:induction false} WalkPrinted(bag: seq<Byte>, items: seq<Item>, n: nat, off: nat)
    requires AllFit(items) && At(bag, off, PrintedAll(items)) && n <= |items|
    ensures EntriesFrom(bag, n, off) == Placed(items, n, off)
    decreases n
  {
    if n > 0 {
      assert items[0] in items;
      PrintedStep(bag, items, off);
      PrintedLength(items[0]);
      var rest, next := items[1..], off + EntryLen(|items[0].data|);
      assert AllFit(rest);
      WalkPrinted(bag, rest, n - 1, next);
    }
  }

  /**
   A bag laid out as the format says is read back entry by entry, data whole,
   whatever the rest of its header and whatever follows; the count cap is the
   only limit.
   */
  lemma {:induction false} LayoutRoundTrip(head: seq<Byte>, mid: seq<Byte>, items: seq<Item>, tail: seq<Byte>)
    requires |head| == 34 && |mid| == 12 && |items| < 0x1_0000 && AllFit(items)
    ensures Entries(head + (LeBytes(|items|, 2) + (mid + (PrintedAll(items) + tail)))) ==
            Placed(items, Min(|items|, 4096), 48)
  {
    var n, body := LeBytes(|items|, 2), PrintedAll(items);
    var bag := head + (n + (mid + (body + tail)));
    AtRight(head, n + (mid + (body + tail)));
    Pow256Values();
    FieldThen(bag, NKEYS, |items|, 2, mid + (body + tail));
    AtSplit(bag, NKEYS + 2, mid, body + tail);
    AtSplit(bag, ENTRIES, body, tail);
    WalkPrinted(bag, items, Min(|items|, MAX_ENTRIES), ENTRIES);
  }

  // ---------- what the walkers make of a bag written entry by entry ----------

  /** The blob has no 0x30 item, and the nested object is its first 0xa3 item. */
  ghost predicate Bare(data: seq<Byte>, nested: seq<Byte>, cs: seq<Ber.Coded>) {
    && Ber.AllFit(cs) && data == Ber.Encode(cs) && Ber.First(Ber.ItemsOf(cs), 0x30) == None
    && Ber.First(Ber.ItemsOf(cs), 0xa3) == Some(nested)
  }

  /** The nested object is the first 0xa3 item of the blob's first 0x30 item. */
  ghost predicate Wrapped(data: seq<Byte>, nested: seq<Byte>, cs: seq<Ber.Coded>, inner: seq<Ber.Coded>) {
    && Ber.AllFit(cs) && Ber.AllFit(inner) && data == Ber.Encode(cs)
    && Ber.First(Ber.ItemsOf(cs), 0x30) == Some(Ber.Encode(inner)) && Ber.First(Ber.ItemsOf(inner), 0xa3) == Some(nested)
  }

  ghost predicate Nests(data: seq<Byte>, nested: seq<Byte>) {
    (exists cs :: Bare(data, nested, cs)) || (exists cs, inner :: Wrapped(data, nested, cs, inner))
  }

  lemma {:induction false} NestedFound(data: seq<Byte>, nested: seq<Byte>)
    requires Nests(data, nested)
    ensures Ber.Find(Unwrapped(data), 0xa3) == Some(nested)
  {
    if cs :| Bare(data, nested, cs) {
      Ber.ReadersRoundTrip(cs, 0x30);
      Ber.ReadersRoundTrip(cs, 0xa3);
    } else {
      var cs, inner :| Wrapped(data, nested, cs, inner);
      Ber.ReadersRoundTrip(cs, 0x30);
      Ber.ReadersRoundTrip(inner, 0xa3);
    }
  }

  /** The data of a volume-key entry: a 40-byte key as item 0x83 of the nested object. */
  ghost predicate HoldsKey(data: seq<Byte>, key: seq<Byte>) {
    |key| == 40 && exists ks :: Ber.AllFit(ks) && Nests(data, Ber.Encode(ks)) && Ber.First(Ber.ItemsOf(ks), 0x83) == Some(key)
  }

  lemma {:induction false} KeyFound(data: seq<Byte>, key: seq<Byte>)
    requires HoldsKey(data, key)
    ensures KeyIn(data) == Ok(key)
  {
    var ks :| Ber.AllFit(ks) && Nests(data, Ber.Encode(ks)) && Ber.First(Ber.ItemsOf(ks), 0x83) == Some(key);
    NestedFound(data, Ber.Encode(ks));
    Ber.ReadersRoundTrip(ks, 0x83);
  }

  /** The data of an unlock-records entry: first block and block count. */
  function PrintExtent(x: Extent, more: seq<Byte>): seq<Byte> {
    LeBytes(x.block, 8) + (LeBytes(x.count, 8) + more)
  }

  lemma {:induction false} ExtentFound(x: Extent, more: seq<Byte>)
    requires x.block < U64 && x.count < U64
    ensures ExtentIn(PrintExtent(x, more)) == Ok(x)
  {
    var data := PrintExtent(x, more);
    Pow256Values();
    assert At(data, 0, LeBytes(x.block, 8) + (LeBytes(x.count, 8) + more));
    FieldThen(data, 0, x.block, 8, LeBytes(x.count, 8) + more);
    FieldThen(data, 8, x.count, 8, more);
  }

  /** Item k is the last of the volume with this raw tag. */
  ghost predicate LastWritten(items: seq<Item>, uuid: seq<Byte>, raw: nat, k: nat) {
    && k < |items| && items[k].uuid == uuid && items[k].raw == raw
    && forall j :: k < j < |items| ==> items[j].uuid != uuid || items[j].raw != raw
  }

  lemma {:induction false} NoneLast(items: seq<Item>, off: nat, uuid: seq<Byte>, raw: nat, tag: Tag)
    requires (raw == 2 && tag == VolumeKey) || (raw == 3 && tag == VolumeUnlockRecords)
    requires forall j :: 0 <= j < |items| ==> items[j].uuid != uuid || items[j].raw != raw
    ensures LastOf(Placed(items, |items|, off), uuid, tag) == None
    decreases |items|
  {
    if items != [] {
      NoneLast(items[1..], off + |Printed(items[0])|, uuid, raw, tag);
      PlacedRest(items, off);
    }
  }

  lemma {:induction false} PlacedRest(items: seq<Item>, off: nat)
    requires items != []
    ensures var es := Placed(items, |items|, off);
            && es != [] && es[0] == Entry(off, items[0].uuid, items[0].raw, Some(items[0].data))
            && es[1..] == Placed(items[1..], |items[1..]|, off + |Printed(items[0])|)
  {
  }

  lemma {:induction false} LastPlaced(items: seq<Item>, off: nat, uuid: seq<Byte>, raw: nat, tag: Tag, k: nat)
    requires (raw == 2 && tag == VolumeKey) || (raw == 3 && tag == VolumeUnlockRecords)
    requires LastWritten(items, uuid, raw, k)
    ensures var e := LastOf(Placed(items, |items|, off), uuid, tag);
            e.Some? && DataOf(e.value) == items[k].data
    decreases k
  {
    PlacedRest(items, off);
    if k == 0 {
      NoneLast(items[1..], off + |Printed(items[0])|, uuid, raw, tag);
    } else {
      LastPlaced(items[1..], off + |Printed(items[0])|, uuid, raw, tag, k - 1);
    }
  }

  /** Every entry of the volume with tag 2 holds a key, and every one with tag 3 an extent. */
  ghost predicate OwnEntriesSound(items: seq<Item>, uuid: seq<Byte>) {
    forall j :: 0 <= j < |items| && items[j].uuid == uuid ==>
      && (items[j].raw == 2 ==> exists key :: HoldsKey(items[j].data, key))
      && (items[j].raw == 3 ==> |items[j].data| >= 16)
  }

  lemma {:induction false} SoundIsWellFormed(items: seq<Item>, off: nat, uuid: seq<Byte>)
    requires OwnEntriesSound(items, uuid)
    ensures WellFormed(Placed(items, |items|, off), uuid)
    decreases |items|
  {
    if items != [] {
      PlacedRest(items, off);
      SoundIsWellFormed(items[1..], off + |Printed(items[0])|, uuid);
      if items[0].uuid == uuid && items[0].raw == 2 {
        var key :| HoldsKey(items[0].data, key);
        KeyFound(items[0].data, key);
      }
    }
  }

  /**
   A bag laid out entry by entry gives a volume the key and the extent written
   last for it, whatever other volumes' entries say.
   */
  lemma {:induction false} RecordsRoundTrip(head: seq<Byte>, mid: seq<Byte>, items: seq<Item>, tail: seq<Byte>,
                                            uuid: seq<Byte>, k: nat, x: nat, key: seq<Byte>, extent: Extent, more: seq<Byte>)
    requires |head| == 34 && |mid| == 12 && |items| <= 4096 && AllFit(items) && OwnEntriesSound(items, uuid)
    requires LastWritten(items, uuid, 2, k) && HoldsKey(items[k].data, key)
    requires LastWritten(items, uuid, 3, x) && items[x].data == PrintExtent(extent, more) && extent.block < U64 && extent.count < U64
    ensures RecordsOf(Entries(head + (LeBytes(|items|, 2) + (mid + (PrintedAll(items) + tail)))), uuid) == Ok(Records(key, extent))
  {
    LayoutRoundTrip(head, mid, items, tail);
    SoundIsWellFormed(items, 48, uuid);
    LastPlaced(items, 48, uuid, 2, VolumeKey, k);
    LastPlaced(items, 48, uuid, 3, VolumeUnlockRecords, x);
    KeyFound(items[k].data, key);
    ExtentFound(extent, more);
    RecordsExact(Placed(items, |items|, 48), uuid);
  }

  // ---------- the other two walkers ----------

  ghost predicate SomeRaw(items: seq<Item>, raw: nat) {
    exists j :: 0 <= j < |items| && items[j].raw == raw
  }

  lemma {:induction false} HasRaw(items: seq<Item>, off: nat, raw: nat, tag: Tag)
    requires TagOf(raw) == tag && tag != Unknown
    ensures Has(Placed(items, |items|, off), tag) <==> SomeRaw(items, raw)
    decreases |items|
  {
    if items != [] {
      PlacedRest(items, off);
      var rest := items[1..];
      HasRaw(rest, off + |Printed(items[0])|, raw, tag);
      if SomeRaw(rest, raw) {
        var j :| 0 <= j < |rest| && rest[j].raw == raw;
        assert items[j + 1].raw == raw;
      }
      if SomeRaw(items, raw) && items[0].raw != raw {
        var j :| 0 <= j < |items| && items[j].raw == raw;
        assert rest[j - 1].raw == raw;
      }
      assert TagOf(items[0].raw) == tag <==> items[0].raw == raw;
    }
  }

  /** The raw tags and offsets of the entries outside the format's five tags. */
  function Unlisted(items: seq<Item>, off: nat): seq<(nat, nat)> {
    if items == [] then []
    else (if items[0].raw in {1, 2, 3, 4, 0xf8} then [] else [(items[0].raw, off)]) + Unlisted(items[1..], off + |Printed(items[0])|)
  }

  lemma {:induction false} UnknownIsUnlisted(items: seq<Item>, off: nat)
    ensures UnknownTags(Placed(items, |items|, off)) == Unlisted(items, off)
    decreases |items|
  {
    if items != [] {
      PlacedRest(items, off);
      UnknownIsUnlisted(items[1..], off + |Printed(items[0])|);
    }
  }

  /** What a state observed of a written bag says, in the format's tag numbers. */
  lemma {:induction false} StateOfBag(s: EncryptionState, items: seq<Item>)
    requires Observed(s, Placed(items, |items|, 48))
    ensures s.encrypted <==> SomeRaw(items, 1) || SomeRaw(items, 2) || SomeRaw(items, 3)
    ensures s.hasHint <==> SomeRaw(items, 4)
    ensures UserPayload in s.tags <==> SomeRaw(items, 0xf8)
    ensures s.unknown == Unlisted(items, 48)
  {
    HasRaw(items, 48, 1, WrappingKey);
    HasRaw(items, 48, 2, VolumeKey);
    HasRaw(items, 48, 3, VolumeUnlockRecords);
    HasRaw(items, 48, 4, VolumePassphraseHint);
    HasRaw(items, 48, 0xf8, UserPayload);
    UnknownIsUnlisted(items, 48);
  }

  lemma {:induction false} KekTags(e: Entry)
    ensures KekIn(e) == if e.raw in {1, 3} && e.data.Some? then Ber.Find(Unwrapped(e.data.value), 0xa3) else None
  {
  }

  /** The key-encryption key is the nested object of the first entry with tag 1 or 3. */
  lemma {:induction false} KekOfBag(items: seq<Item>, off: nat, k: nat, nested: seq<Byte>)
    requires k < |items| && items[k].raw in {1, 3} && Nests(items[k].data, nested)
    requires forall j :: 0 <= j < k ==> items[j].raw !in {1, 3}
    ensures FirstKek(Placed(items, |items|, off)) == Some(nested)
    decreases k
  {
    PlacedRest(items, off);
    var es := Placed(items, |items|, off);
    KekTags(es[0]);
    if k == 0 {
      NestedFound(items[0].data, nested);
    } else {
      assert KekIn(es[0]) == None;
      var rest := items[1..];
      assert forall j :: 0 <= j < k - 1 ==> rest[j] == items[j + 1];
      KekOfBag(rest, off + |Printed(items[0])|, k - 1, nested);
    }
  }
}
